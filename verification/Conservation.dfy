/** What holds in any arrival order: no slot is lost, and no frame is played that was not queued, nor
    more often than it was. */
module Conservation {
  import opened Rtp
  import opened AudioBuffer
  import opened AudioTiming
  import opened AudioReceiver
  import opened PlayoutRuns
  import opened InOrderPlayout
  import opened Wrappers

  type Bag = multiset<Frame>

  /** The frames the receiver still has: queued, or parked in the pending copy. */
  function Kept(t: Timing, q: seq<Frame>): Bag {
    multiset(q) + if t.pendingValid then multiset{t.pending} else multiset{}
  }

  lemma BagOfTail(q: seq<Frame>)
    requires q != []
    ensures multiset(q) == multiset{q[0]} + multiset(q[1..])
  {
    assert q == [q[0]] + q[1..];
  }

  // ---------- reading ----------

  /** The frame in hand ends up in one place at most. */
  lemma SettleConserves(t: Timing, q: seq<Frame>, f: Frame, len: nat, fromPending: bool, v: Verdict)
    requires if fromPending then t.pendingValid && t.pending == f else !t.pendingValid
    ensures var s := Settle(t, q, f, len, fromPending, v);
      Kept(s.t, s.q) + multiset(DonePlayed(s.done)) <= multiset(q) + multiset{f}
  {
    hide Kept;
    var s := Settle(t, q, f, len, fromPending, v);
    OnePlaceAtMost(s.t, s.q, DonePlayed(s.done), q, f);
  }

  lemma OnePlaceAtMost(t1: Timing, q1: seq<Frame>, played: seq<Frame>, q: seq<Frame>, f: Frame)
    requires q1 == q || q1 == []
    requires played == [] || played == [f]
    requires t1.pendingValid ==> t1.pending == f && played == []
    ensures Kept(t1, q1) + multiset(played) <= multiset(q) + multiset{f}
  {
  }

  lemma ActConserves(t: Timing, q: seq<Frame>, f: Frame, len: nat, fromPending: bool, env: Env)
    requires if fromPending then t.pendingValid && t.pending == f else !t.pendingValid
    ensures var s := Act(t, q, f, len, fromPending, env);
      Kept(s.t, s.q) + multiset(DonePlayed(s.done)) <= multiset(q) + multiset{f}
  {
    hide Judge, Count, Settle, Kept;
    var v := Judge(t, f, len, env);
    CountKeepsPending(t, v, env);
    SettleConserves(Count(t, v, env), q, f, len, fromPending, v);
  }

  lemma AttemptConserves(t: Timing, q: seq<Frame>, env: Env)
    ensures var s := Attempt(t, q, env);
      Kept(s.t, s.q) + multiset(DonePlayed(s.done)) <= Kept(t, q)
  {
    hide Act;
    if t.pendingValid {
      ActConserves(t, q, t.pending, t.pendingLen, true, env);
    } else if q != [] {
      BagOfTail(q);
      ActConserves(t, q[1..], q[0], q[0].Bytes(), false, env);
    }
  }

  lemma {:induction false} AttemptsConserve(t: Timing, q: seq<Frame>, env: Env, n: nat)
    ensures var o := Attempts(t, q, env, n);
      Kept(o.t, o.q) + multiset(PlayedBy(o.event)) <= Kept(t, q)
    decreases n
  {
    hide Attempt, Kept;
    if n > 0 {
      AttemptConserves(t, q, env);
      var s := Attempt(t, q, env);
      if s.done == None {
        AttemptsConserve(s.t, s.q, env, n - 1);
      }
    }
  }

  lemma {:induction false} ReadConserves(t: Timing, q: seq<Frame>, env: Env)
    ensures var o := Read(t, q, env);
      Kept(o.t, o.q) + multiset(PlayedBy(o.event)) <= Kept(t, q)
  {
    hide Attempts;
    AttemptsConserve(Gated(t, q, env), q, env, MAX_ATTEMPTS);
  }

  // ---------- feeding ----------

  lemma InsertAddsOne(q: seq<Frame>, f: Frame)
    ensures multiset(Insert(q, f)) == multiset(q) + multiset{f}
  {
    var p := SearchPos(Before(q, f.Ts()), 0, |q|);
    assert q == q[..p] + q[p..];
  }

  lemma ChunkConserves(q: seq<Frame>, capacity: nat, held: nat, f: Frame)
    ensures var q1 := QueueChunk(q, capacity, held, f).0;
      multiset(q1) <= multiset(q) + multiset{f} && (|q| + held <= capacity ==> |q1| + held <= capacity)
  {
    hide Insert;
    if q != [] {
      BagOfTail(q);
    }
    var q1 := if |q| >= capacity && |q| > 0 then q[1..] else q;
    InsertAddsOne(q1, f);
  }

  lemma {:induction false} PcmConserves(q: seq<Frame>, capacity: nat, held: nat, at: int, channels: nat,
                                        pcm: seq<Sample>)
    ensures var q1 := QueuePcm(q, capacity, held, at, channels, pcm).0;
      && multiset(q1) <= multiset(q) + multiset(Chunks(at, channels, pcm))
      && (|q| + held <= capacity ==> |q1| + held <= capacity)
    decreases |pcm|
  {
    hide QueueChunk;
    if |pcm| > 0 {
      var n := if |pcm| > AAC_FRAMES_PER_PACKET then AAC_FRAMES_PER_PACKET else |pcm|;
      var f := Frame(at, channels, pcm[..n]);
      var chunks := Chunks(at, channels, pcm);
      ChunkConserves(q, capacity, held, f);
      BagOfTail(chunks);
      PcmConserves(QueueChunk(q, capacity, held, f).0, capacity, held, at + n, channels, pcm[n..]);
    }
  }

  /** Every buffered frame fits the pending copy. */
  ghost predicate Fits(q: seq<Frame>, capacity: nat) {
    forall i :: 0 <= i < |q| ==> q[i].Bytes() <= capacity
  }

  lemma FrameFitsSlot(f: Frame)
    requires |f.pcm| <= AAC_FRAMES_PER_PACKET && f.channels <= AUDIO_MAX_CHANNELS
    ensures f.Bytes() <= BYTES_PER_FRAME
  {
    assert f.channels == 0 || f.channels == 1 || f.channels == 2;
  }

  lemma {:induction false} ChunksFit(at: int, channels: nat, pcm: seq<Sample>)
    requires channels <= AUDIO_MAX_CHANNELS
    ensures Fits(Chunks(at, channels, pcm), BYTES_PER_FRAME)
    decreases |pcm|
  {
    if |pcm| > 0 {
      var n := if |pcm| > AAC_FRAMES_PER_PACKET then AAC_FRAMES_PER_PACKET else |pcm|;
      FrameFitsSlot(Frame(at, channels, pcm[..n]));
      ChunksFit(at + n, channels, pcm[n..]);
    }
  }

  /** Fitting depends on which frames there are, not where. */
  lemma BagFits(q: seq<Frame>, whole: Bag, capacity: nat)
    requires multiset(q) <= whole && forall f :: f in whole ==> f.Bytes() <= capacity
    ensures Fits(q, capacity)
  {
    forall i | 0 <= i < |q| ensures q[i].Bytes() <= capacity {
      assert q[i] in multiset(q);
    }
  }

  // ---------- runs ----------

  /** The chunks a call offers the buffer. */
  function Offered(c: Call): seq<Frame> {
    if c.Feed? then Chunks(c.at, EffectiveChannels(c.channels), c.pcm) else []
  }

  function AllOffered(calls: seq<Call>): seq<Frame> {
    if calls == [] then [] else Offered(calls[0]) + AllOffered(calls[1..])
  }

  lemma FeedConserves(r: Receiver, c: Call)
    requires c.Feed?
    ensures var r1 := After(r, c).0; Kept(r1.t, r1.q) <= Kept(r.t, r.q) + multiset(Offered(c))
  {
    hide Chunks, QueuePcm, TsCmp;
    var r1 := After(r, c).0;
    PcmConserves(r.q, r.capacity, r.held, c.at, EffectiveChannels(c.channels), c.pcm);
    assert r1.t == r.t;
  }

  lemma ControlConserves(r: Receiver, c: Call)
    requires !c.Feed? && !c.ReadCall?
    ensures var r1 := After(r, c).0; Kept(r1.t, r1.q) <= Kept(r.t, r.q) && After(r, c).1 == Idle
  {
    hide TsCmp, Displaced, Read, QueueDecoded, Gate, Kept;
    var r1 := After(r, c).0;
    assert r1.q == r.q || r1.q == [];
    assert r1.t.pendingValid ==> r.t.pendingValid && r1.t.pending == r.t.pending;
    FewerKept(r1.t, r1.q, r.t, r.q);
  }

  lemma FewerKept(t1: Timing, q1: seq<Frame>, t: Timing, q: seq<Frame>)
    requires q1 == q || q1 == []
    requires t1.pendingValid ==> t.pendingValid && t1.pending == t.pending
    ensures Kept(t1, q1) <= Kept(t, q)
  {
  }

  lemma PlusNothing(b: Bag, none: seq<Frame>)
    requires none == []
    ensures b + multiset(none) == b
  {
    assert multiset(none) == multiset{};
  }

  /** What a call leaves in the receiver and plays was there before or is offered by it. */
  lemma CallConserves(r: Receiver, c: Call)
    ensures var (r1, e) := After(r, c);
      Kept(r1.t, r1.q) + multiset(PlayedBy(e)) <= Kept(r.t, r.q) + multiset(Offered(c))
  {
    hide Read, Kept, Chunks, ProcessFrame, SetAnchorTime, Flush, SeekFlush;
    var (r1, e) := After(r, c);
    if c.Feed? {
      FeedConserves(r, c);
      PlusNothing(Kept(r1.t, r1.q), PlayedBy(e));
    } else if c.ReadCall? {
      ReadConserves(r.t, r.q, c.env);
      PlusNothing(Kept(r.t, r.q), Offered(c));
    } else {
      ControlConserves(r, c);
      PlusNothing(Kept(r1.t, r1.q), PlayedBy(e));
      PlusNothing(Kept(r.t, r.q), Offered(c));
    }
  }

  lemma BagsChain(k0: Bag, k1: Bag, k2: Bag, p: seq<Frame>, ps: seq<Frame>, o: seq<Frame>, os: seq<Frame>)
    requires k1 + multiset(p) <= k0 + multiset(o) && k2 + multiset(ps) <= k1 + multiset(os)
    ensures k2 + multiset(p + ps) <= k0 + multiset(o + os)
  {
    var ps1, os1, p1, o1 := multiset(ps), multiset(os), multiset(p), multiset(o);
    assert multiset(p + ps) == p1 + ps1 && multiset(o + os) == o1 + os1;
    forall f: Frame ensures (k2 + (p1 + ps1))[f] <= (k0 + (o1 + os1))[f] {
      assert (k1 + p1)[f] <= (k0 + o1)[f] && (k2 + ps1)[f] <= (k1 + os1)[f];
    }
  }

  lemma {:induction false} RunConserves(r: Receiver, calls: seq<Call>)
    ensures Kept(Run(r, calls).t, Run(r, calls).q) + multiset(PlayedFrames(Events(r, calls)))
         <= Kept(r.t, r.q) + multiset(AllOffered(calls))
    decreases |calls|
  {
    hide After, Kept, Offered, PlayedBy;
    if calls != [] {
      var (r1, e) := After(r, calls[0]);
      var r2, later := Run(r1, calls[1..]), Events(r1, calls[1..]);
      CallConserves(r, calls[0]);
      RunConserves(r1, calls[1..]);
      assert Events(r, calls) == [e] + later;
      assert ([e] + later)[0] == e && ([e] + later)[1..] == later;
      BagsChain(Kept(r.t, r.q), Kept(r1.t, r1.q), Kept(r2.t, r2.q), PlayedBy(e), PlayedFrames(later),
                Offered(calls[0]), AllOffered(calls[1..]));
    }
  }

  lemma PartOfWhole(a: Bag, b: Bag, whole: Bag)
    requires a + b <= multiset{} + whole
    ensures b <= whole
  {
    forall f: Frame ensures b[f] <= whole[f] {
      assert (a + b)[f] <= (multiset{} + whole)[f];
    }
  }

  lemma NothingKept(t: Timing)
    requires !t.pendingValid
    ensures Kept(t, []) == multiset{}
  {
    PlusNothing(multiset{}, []);
  }

  /** Over any run from a state that keeps nothing, in any arrival order and with any calls in between:
      every frame played was offered, and none is played more often than it was. */
  lemma {:induction false} NothingPlayedTwice(r: Receiver, calls: seq<Call>)
    requires r.q == [] && !r.t.pendingValid
    ensures multiset(PlayedFrames(Events(r, calls))) <= multiset(AllOffered(calls))
  {
    hide Run, Events, Kept, AllOffered, PlayedFrames;
    RunConserves(r, calls);
    NothingKept(r.t);
    PartOfWhole(Kept(Run(r, calls).t, Run(r, calls).q), multiset(PlayedFrames(Events(r, calls))),
                multiset(AllOffered(calls)));
  }

  ghost predicate StereoAtMost(calls: seq<Call>) {
    forall c :: c in calls && c.Feed? ==> EffectiveChannels(c.channels) <= AUDIO_MAX_CHANNELS
  }

  /** No slot is out, the queue fits the pool, and every frame fits the pending copy. */
  ghost predicate Safe(r: Receiver) {
    && r.held == 0 && |r.q| <= r.capacity
    && Fits(r.q, r.t.pendingCapacity) && BYTES_PER_FRAME <= r.t.pendingCapacity
  }

  lemma {:induction false} AttemptsKeepSlots(t: Timing, q: seq<Frame>, env: Env, n: nat)
    requires Fits(q, t.pendingCapacity)
    ensures var o := Attempts(t, q, env, n);
      !o.leaked && o.t.pendingCapacity == t.pendingCapacity && Fits(o.q, t.pendingCapacity) && |o.q| <= |q|
    decreases n
  {
    hide Attempt, Fits;
    if n > 0 {
      AttemptKeepsSlots(t, q, env);
      var s := Attempt(t, q, env);
      if s.done == None {
        AttemptsKeepSlots(s.t, s.q, env, n - 1);
      }
    }
  }

  lemma AttemptKeepsSlots(t: Timing, q: seq<Frame>, env: Env)
    requires Fits(q, t.pendingCapacity)
    ensures var s := Attempt(t, q, env);
      !s.leaked && s.t.pendingCapacity == t.pendingCapacity && Fits(s.q, t.pendingCapacity) && |s.q| <= |q|
  {
    hide Judge, Count, Settle;
    if t.pendingValid {
      var v := Judge(t, t.pending, t.pendingLen, env);
      CountKeepsPending(t, v, env);
      SettleShape(Count(t, v, env), q, t.pending, t.pendingLen, true, v);
    } else if q != [] {
      var v := Judge(t, q[0], q[0].Bytes(), env);
      CountKeepsPending(t, v, env);
      SettleShape(Count(t, v, env), q[1..], q[0], q[0].Bytes(), false, v);
    }
  }

  /** A read gives every slot back when all queued frames fit the pending copy. */
  lemma {:induction false} ReadKeepsSlots(t: Timing, q: seq<Frame>, env: Env)
    requires Fits(q, t.pendingCapacity)
    ensures var o := Read(t, q, env);
      !o.leaked && o.t.pendingCapacity == t.pendingCapacity && Fits(o.q, t.pendingCapacity) && |o.q| <= |q|
  {
    hide Attempts;
    AttemptsKeepSlots(Gated(t, q, env), q, env, MAX_ATTEMPTS);
  }

  lemma FeedKeepsSafe(r: Receiver, c: Call)
    requires Safe(r) && c.Feed? && EffectiveChannels(c.channels) <= AUDIO_MAX_CHANNELS
    ensures Safe(After(r, c).0)
  {
    hide TsCmp, QueuePcm, Chunks;
    var ch := EffectiveChannels(c.channels);
    var chunks := Chunks(c.at, ch, c.pcm);
    var q1 := QueuePcm(r.q, r.capacity, r.held, c.at, ch, c.pcm).0;
    PcmConserves(r.q, r.capacity, r.held, c.at, ch, c.pcm);
    ChunksFit(c.at, ch, c.pcm);
    BagFits(q1, multiset(r.q) + multiset(chunks), r.t.pendingCapacity);
  }

  lemma CallKeepsSafe(r: Receiver, c: Call)
    requires Safe(r) && (c.Feed? ==> EffectiveChannels(c.channels) <= AUDIO_MAX_CHANNELS)
    ensures Safe(After(r, c).0)
  {
    hide Read, QueuePcm, TsCmp, Displaced;
    if c.Feed? {
      FeedKeepsSafe(r, c);
    } else if c.ReadCall? {
      ReadKeepsSlots(r.t, r.q, c.env);
    }
  }

  lemma {:induction false} RunKeepsSafe(r: Receiver, calls: seq<Call>)
    requires Safe(r) && StereoAtMost(calls)
    ensures Safe(Run(r, calls))
    decreases |calls|
  {
    hide After;
    if calls != [] {
      CallKeepsSafe(r, calls[0]);
      RunKeepsSafe(After(r, calls[0]).0, calls[1..]);
    }
  }

  /** With a pending copy of at least a slot, no call of any run leaves a slot taken, and what is
      queued never exceeds the pool. */
  lemma NoSlotIsLost(r: Receiver, calls: seq<Call>)
    requires Empty(r) && r.t.pendingCapacity >= BYTES_PER_FRAME && StereoAtMost(calls)
    ensures Run(r, calls).held == 0 && |Run(r, calls).q| <= Run(r, calls).capacity
  {
    RunKeepsSafe(r, calls);
  }
}
