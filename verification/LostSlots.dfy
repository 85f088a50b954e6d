/** When the pool can lose slots: exactly when the pending copy cannot take every frame, as when its
    allocation fails and its capacity is zero. */
module LostSlots {
  import opened MachineIntegers
  import opened Rtp
  import opened AudioBuffer
  import opened AudioTiming
  import opened AudioReceiver
  import opened PlayoutRuns
  import opened Conservation
  import opened FlushPoints
  import opened Wrappers

  /** A silent stereo packet of one full chunk, and the frame it becomes. */
  function Pcm(): (pcm: seq<Sample>)
    ensures |pcm| == AAC_FRAMES_PER_PACKET
  {
    seq(AAC_FRAMES_PER_PACKET, _ => [0, 0])
  }

  function Full(): (f: Frame)
    ensures f.at == 0 && f.channels == 2 && |f.pcm| == AAC_FRAMES_PER_PACKET && f.Bytes() == BYTES_PER_FRAME
  {
    Frame(0, 2, Pcm())
  }

  function Copies(n: nat): (q: seq<Frame>)
    ensures |q| == n && forall i :: 0 <= i < n ==> q[i] == Full()
  {
    seq(n, _ => Full())
  }

  /** Packets all carry timestamp 0, which the anchors below put a second after local time 0. */
  const FEED: Call := Feed(0, 2, Pcm())
  const ANCHOR: Call := Anchor(0, 1000000000, 0, 44100)

  /** A read at a time when the frame is due, or well before it. */
  function ReadAt(nowUs: int): Call {
    ReadCall(Env(nowUs, true, 0, false, 0, 44100, 2, 352))
  }

  const EARLY: Call := ReadAt(0)
  const DUE: Call := ReadAt(954000)

  /** A playing receiver with open gates, `k` copies queued and `held` slots out. */
  ghost predicate Holding(r: Receiver, k: nat, held: nat) {
    && r.q == Copies(k) && r.held == held && k + held <= r.capacity
    && !r.beforeValid && !r.aboveValid && !r.armOnNextAnchor
    && r.t.playing && !r.t.pendingValid && !r.t.postFlush && !r.t.deferred
    && r.t.pendingCapacity < BYTES_PER_FRAME
  }

  // ---------- the steps ----------

  lemma InsertCopy(k: nat)
    ensures Insert(Copies(k), Full()) == Copies(k + 1)
  {
    var p := SearchPos(Before(Copies(k), Full().Ts()), 0, k);
    assert Insert(Copies(k), Full()) == Copies(k)[..p] + [Full()] + Copies(k)[p..];
  }

  lemma QueueOneChunk(q: seq<Frame>, capacity: nat, held: nat)
    ensures QueueDecoded(q, capacity, held, 0, 2, Pcm()).0 == QueueChunk(q, capacity, held, Full()).0
  {
    hide QueueChunk, Pcm;
    assert Pcm()[..AAC_FRAMES_PER_PACKET] == Pcm();
    var (q1, ok) := QueueChunk(q, capacity, held, Full());
    assert QueuePcm(q1, capacity, held, AAC_FRAMES_PER_PACKET, 2, []) == (q1, true);
    assert Pcm()[AAC_FRAMES_PER_PACKET..] == [];
  }

  /** Feeding adds a copy while a slot is free; with none free the queue shrinks by one at most. */
  lemma FeedStep(r: Receiver, k: nat, held: nat)
    requires Holding(r, k, held) && r.capacity > 0
    ensures var r1 := After(r, FEED).0; var k1 := |r1.q|;
      && Holding(r1, k1, held) && r1.t == r.t && r1.capacity == r.capacity
      && (k + held < r.capacity ==> k1 == k + 1) && (held < r.capacity ==> k1 > 0)
  {
    hide QueueDecoded, Insert, Copies, Full, Pcm, TsCmp;
    QueueOneChunk(r.q, r.capacity, held);
    InsertCopy(k);
    if k > 0 {
      assert Copies(k)[1..] == Copies(k - 1);
      InsertCopy(k - 1);
    }
  }

  lemma AnchorStep(r: Receiver, k: nat, held: nat)
    requires Holding(r, k, held)
    ensures var r1 := After(r, ANCHOR).0;
      && Holding(r1, k, held) && r1.capacity == r.capacity
      && r1.t == r.t.(anchorRtp := 0, anchorNetworkNs := 1000000000, anchorLocalNs := 0, anchorValid := true,
                      early := 0, late := 0)
  {
    hide Copies, Full, Pcm;
    if k > 0 {
      assert r.q[0].Ts() == 0;
    }
  }

  lemma FrameTimes(t: Timing, env: Env)
    requires t.anchorValid && t.anchorRtp == 0 && t.anchorNetworkNs == 1000000000
    requires env.ptpLocked && env.ptpOffsetNs == 0 && env.sampleRate == 44100
    ensures EarlyUs(t, env, Full().Ts()) == CDiv(954000000 - env.nowUs * 1000, 1000)
  {
    assert TsCmp(Full().Ts(), 0) == 0;
  }

  predicate JustAnchored(t: Timing) {
    t.anchorValid && t.anchorRtp == 0 && t.anchorNetworkNs == 1000000000 && t.early == 0 && t.late == 0
  }

  /** A frame that is early and does not fit the pending copy takes its slot with it. */
  lemma EarlyStep(r: Receiver, k: nat, held: nat)
    requires Holding(r, k, held) && k > 0 && JustAnchored(r.t) && (r.t.playoutStarted || k >= r.t.targetFrames)
    ensures var r1 := After(r, EARLY).0;
      Holding(r1, k - 1, held + 1) && r1.capacity == r.capacity && r1.t == r.t.(early := 1)
  {
    var env := EARLY.env;
    FrameTimes(r.t, env);
    hide Copies, Full, Pcm, EarlyUs;
    assert Copies(k)[0] == Full() && Copies(k)[1..] == Copies(k - 1);
    assert CDiv(954000000, 1000) == 954000;
    assert Judge(r.t, Full(), Full().Bytes(), env) == Hold;
    assert Attempt(r.t, r.q, env) == Step(r.t.(early := 1), r.q[1..], true, Some(Silence));
  }

  /** Played on time, a frame gives its slot back and playout has started. */
  lemma DueStep(r: Receiver, k: nat, held: nat)
    requires Holding(r, k, held) && k > 0 && JustAnchored(r.t) && (r.t.playoutStarted || k >= r.t.targetFrames)
    ensures var r1 := After(r, DUE).0;
      Holding(r1, k - 1, held) && r1.capacity == r.capacity && r1.t == r.t.(playoutStarted := true)
  {
    var env := DUE.env;
    FrameTimes(r.t, env);
    hide Copies, Full, Pcm, EarlyUs;
    assert Copies(k)[0] == Full() && Copies(k)[1..] == Copies(k - 1);
    assert CDiv(0, 1000) == 0;
    assert Judge(r.t, Full(), Full().Bytes(), env) == PlayNow;
    assert Attempt(r.t, r.q, env) == Step(AfterPlay(r.t, false), r.q[1..], false, Some(Played(Full())));
  }

  // ---------- the runs ----------

  function Feeds(n: nat): seq<Call> {
    seq(n, _ => FEED)
  }

  lemma RunOne(r: Receiver, c: Call, calls: seq<Call>)
    ensures Run(r, [c] + calls) == Run(After(r, c).0, calls)
  {
    hide After;
    assert ([c] + calls)[1..] == calls;
  }

  lemma {:induction false} FeedsFill(r: Receiver, k: nat, n: nat)
    requires Holding(r, k, 0) && k + n <= r.capacity && r.capacity > 0
    ensures var r1 := Run(r, Feeds(n)); Holding(r1, k + n, 0) && r1.t == r.t && r1.capacity == r.capacity
    decreases n
  {
    hide After, FEED, Holding;
    if n > 0 {
      assert Feeds(n) == [FEED] + Feeds(n - 1);
      FeedStep(r, k, 0);
      var r1 := After(r, FEED).0;
      assert |r1.q| == k + 1 by { CopiesCount(r, k, 0); }
      RunOne(r, FEED, Feeds(n - 1));
      FeedsFill(r1, k + 1, n - 1);
    }
  }

  lemma CopiesCount(r: Receiver, k: nat, held: nat)
    requires Holding(r, k, held)
    ensures |r.q| == k && k + held <= r.capacity
  {
  }

  /** Fill up to the start-up target, anchor, and play one frame on time. */
  function StartUp(target: nat): seq<Call> {
    Feeds(if target > 0 then target else 1) + [ANCHOR, DUE]
  }

  /** Feed, anchor and read early, `n` times over. */
  function Drains(n: nat): seq<Call> {
    if n == 0 then [] else [FEED, ANCHOR, EARLY] + Drains(n - 1)
  }

  lemma RunThree(r: Receiver, a: Call, b: Call, c: Call, calls: seq<Call>)
    ensures Run(r, [a, b, c] + calls) == Run(After(After(After(r, a).0, b).0, c).0, calls)
  {
    hide After;
    assert [a, b, c] + calls == [a] + ([b] + ([c] + calls));
    RunOne(r, a, [b] + ([c] + calls));
    RunOne(After(r, a).0, b, [c] + calls);
    RunOne(After(After(r, a).0, b).0, c, calls);
  }

  lemma {:induction false} DrainsLose(r: Receiver, k: nat, held: nat, n: nat)
    requires Holding(r, k, held) && r.capacity > 0 && r.t.playoutStarted && held + n == r.capacity
    ensures var r1 := Run(r, Drains(n)); r1.held == r.capacity && r1.capacity == r.capacity && r1.q == []
    decreases n
  {
    hide After, FEED, ANCHOR, EARLY;
    if n == 0 {
      assert k == 0;
    } else {
      FeedStep(r, k, held);
      var a := After(r, FEED).0;
      AnchorStep(a, |a.q|, held);
      var b := After(a, ANCHOR).0;
      EarlyStep(b, |a.q|, held);
      var c := After(b, EARLY).0;
      RunThree(r, FEED, ANCHOR, EARLY, Drains(n - 1));
      DrainsLose(c, |a.q| - 1, held + 1, n - 1);
    }
  }

  lemma {:induction false} DrainsAreStereo(n: nat)
    ensures StereoAtMost(Drains(n))
  {
    if n > 0 {
      DrainsAreStereo(n - 1);
    }
  }

  /** A playing receiver whose pool can meet its start-up target. */
  predicate CanStart(r: Receiver) {
    Initial(r) && r.capacity >= 1 && r.capacity >= r.t.targetFrames
  }

  /** From initialisation, with a pending copy smaller than a frame, a stereo run can lose every slot. */
  lemma {:induction false} PoolCanDie(r: Receiver)
    requires CanStart(r) && r.t.pendingCapacity < BYTES_PER_FRAME
    ensures exists calls ::
      StereoAtMost(calls) && Run(r, calls).held == r.capacity == Run(r, calls).capacity && Run(r, calls).q == []
  {
    hide After, Run, FEED, ANCHOR, DUE, Drains;
    var n := if r.t.targetFrames > 0 then r.t.targetFrames else 1;
    assert Copies(0) == [];
    FeedsFill(r, 0, n);
    var a := Run(r, Feeds(n));
    AnchorStep(a, n, 0);
    var b := After(a, ANCHOR).0;
    DueStep(b, n, 0);
    var c := After(b, DUE).0;
    DrainsLose(c, n - 1, 0, r.capacity);
    var calls := StartUp(r.t.targetFrames) + Drains(r.capacity);
    assert Run(r, calls) == Run(c, Drains(r.capacity)) by {
      RunSplits(r, StartUp(r.t.targetFrames), Drains(r.capacity));
      RunSplits(r, Feeds(n), [ANCHOR, DUE]);
      RunTwo(a, ANCHOR, DUE);
    }
    assert StereoAtMost(calls) by {
      DrainsAreStereo(r.capacity);
      StartUpIsStereo(r.t.targetFrames);
    }
  }

  lemma RunTwo(r: Receiver, a: Call, b: Call)
    ensures Run(r, [a, b]) == After(After(r, a).0, b).0
  {
    hide After;
    assert [a, b] == [a] + ([b] + []);
    RunOne(r, a, [b] + []);
    RunOne(After(r, a).0, b, []);
  }

  lemma StartUpIsStereo(target: nat)
    ensures StereoAtMost(StartUp(target))
  {
  }

  /** The exact condition: some stereo run leaves a slot out if and only if the pending copy is smaller
      than a frame; and then some run loses the whole pool, for good. */
  lemma {:induction false} SlotsCanBeLostExactly(r: Receiver)
    requires CanStart(r)
    ensures (exists calls :: StereoAtMost(calls) && Run(r, calls).held > 0) <==> r.t.pendingCapacity < BYTES_PER_FRAME
    ensures r.t.pendingCapacity < BYTES_PER_FRAME ==>
      exists calls :: StereoAtMost(calls) && forall more :: Run(r, calls + more).q == []
  {
    hide Run, StereoAtMost;
    if r.t.pendingCapacity < BYTES_PER_FRAME {
      PoolCanDie(r);
      var calls :|
        StereoAtMost(calls) && Run(r, calls).held == r.capacity == Run(r, calls).capacity && Run(r, calls).q == [];
      StaysDead(r, calls);
    } else {
      forall calls | StereoAtMost(calls) ensures Run(r, calls).held == 0 {
        NoSlotIsLost(r, calls);
      }
    }
  }

  lemma StaysDead(r: Receiver, calls: seq<Call>)
    requires Run(r, calls).held >= Run(r, calls).capacity && Run(r, calls).q == []
    ensures forall more :: Run(r, calls + more).q == []
  {
    forall more ensures Run(r, calls + more).q == [] {
      RunSplits(r, calls, more);
      LostPoolStaysDead(Run(r, calls), more);
    }
  }
}
