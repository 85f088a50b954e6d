/** In-order playback between timeline resets: wherever in a run the receiver was emptied, by a flush, a
    seek flush or an anchor far from the old position, what it plays from there on is in order, forward
    or backward as the seek may have gone, and whatever slots were lost before. */
module PlayoutAfterSeek {
  import opened MachineIntegers
  import opened Rtp
  import opened AudioBuffer
  import opened ArrivalOrder
  import opened AudioTiming
  import opened AudioReceiver
  import opened PlayoutRuns
  import opened InOrderPlayout
  import opened Conservation

  // ---------- the pool over a run ----------

  lemma FeedKeepsPool(r: Receiver, c: Call)
    requires InPool(r) && c.Feed?
    ensures InPool(After(r, c).0) && After(r, c).0.capacity == r.capacity
  {
    hide QueuePcm, Chunks, TsCmp;
    PcmConserves(r.q, r.capacity, r.held, c.at, EffectiveChannels(c.channels), c.pcm);
  }

  lemma CallKeepsPool(r: Receiver, c: Call)
    requires InPool(r)
    ensures InPool(After(r, c).0) && After(r, c).0.capacity == r.capacity
  {
    hide Read, ProcessFrame, Displaced, Reset, Anchored, TargetFrames;
    if c.Feed? {
      FeedKeepsPool(r, c);
    } else if c.ReadCall? {
      ReadShrinks(r.t, r.q, c.env);
    }
  }

  /** Queued frames and lost slots together never exceed the pool, over any run. */
  lemma {:induction false} RunKeepsPool(r: Receiver, calls: seq<Call>)
    requires InPool(r)
    ensures InPool(Run(r, calls)) && Run(r, calls).capacity == r.capacity
    decreases |calls|
  {
    hide After, InPool;
    if calls != [] {
      CallKeepsPool(r, calls[0]);
      RunKeepsPool(After(r, calls[0]).0, calls[1..]);
    }
  }

  // ---------- order between resets ----------

  /** The chunks that `calls` put in the buffer from state r, on the sender's timeline, allow in-order
      playback. */
  ghost predicate FedInOrder(r: Receiver, calls: seq<Call>) {
    Ordered(Queued(r, calls)) && Windowed(Queued(r, calls), r.capacity)
  }

  ghost predicate PlaysInOrder(r: Receiver, calls: seq<Call>) {
    var played := PlayedFrames(Events(r, calls));
    Ordered(played) && Subsequence(played, Queued(r, calls))
  }

  /** After any history that leaves nothing queued and nothing parked. */
  lemma {:induction false} InOrderFromEmpty(r: Receiver, history: seq<Call>, calls: seq<Call>)
    requires InPool(r) && Run(r, history).q == [] && !Run(r, history).t.pendingValid
    requires FedInOrder(Run(r, history), calls)
    ensures PlaysInOrder(Run(r, history), calls)
  {
    hide Run, Events, PlayedFrames, Queued;
    RunKeepsPool(r, history);
    PlayoutInOrder(Run(r, history), calls);
  }

  lemma RunAppends(r: Receiver, history: seq<Call>, c: Call)
    ensures Run(r, history + [c]) == After(Run(r, history), c).0
  {
    hide After;
    RunSplits(r, history, [c]);
    assert [c][1..] == [];
  }

  /** After a flush or a seek flush at any point of any history. */
  lemma {:induction false} InOrderAfterFlush(r: Receiver, history: seq<Call>, flush: Call, calls: seq<Call>)
    requires InPool(r) && (flush.FlushCall? || flush.SeekFlushCall?)
    requires FedInOrder(After(Run(r, history), flush).0, calls)
    ensures PlaysInOrder(After(Run(r, history), flush).0, calls)
  {
    hide Run, PlaysInOrder, FedInOrder, InPool;
    RunAppends(r, history, flush);
    InOrderFromEmpty(r, history + [flush], calls);
  }

  /** After an anchor that finds the buffer at another position, at any point of any history. */
  lemma {:induction false} InOrderAfterSeekAnchor(r: Receiver, history: seq<Call>, anchor: Call, calls: seq<Call>)
    requires InPool(r) && anchor.Anchor?
    requires Displaced(Run(r, history).q, anchor.rtp, EffectiveRate(anchor.sampleRate))
    requires FedInOrder(After(Run(r, history), anchor).0, calls)
    ensures PlaysInOrder(After(Run(r, history), anchor).0, calls)
  {
    hide Run, PlaysInOrder, FedInOrder, Displaced, EffectiveRate, InPool;
    RunAppends(r, history, anchor);
    InOrderFromEmpty(r, history + [anchor], calls);
  }

  // ---------- what goes into the buffer ----------

  /** The chunks of the packets that pass the gates. */
  function Passed(r: Receiver, calls: seq<Call>): seq<Frame>
    decreases |calls|
  {
    if calls == [] then []
    else
      var c := calls[0];
      (if c.Feed? && Gate(r, Wrap32(c.at)).1 then Chunks(c.at, EffectiveChannels(c.channels), c.pcm) else [])
      + Passed(After(r, c).0, calls[1..])
  }

  /** With a pending copy of at least a slot nothing is refused: what goes into the buffer is every chunk
      of every packet that passes the gates. */
  lemma {:induction false} NothingIsRefused(r: Receiver, calls: seq<Call>)
    requires Safe(r) && r.capacity > 0 && StereoAtMost(calls)
    ensures Queued(r, calls) == Passed(r, calls)
    decreases |calls|
  {
    hide After, Taken, Chunks, Gate;
    if calls != [] {
      var c := calls[0];
      CallKeepsSafe(r, c);
      CallKeepsPool(r, c);
      NothingIsRefused(After(r, c).0, calls[1..]);
      if c.Feed? {
        TakenFromChunks(r.q, r.capacity, 0, c.at, EffectiveChannels(c.channels), c.pcm);
      }
    }
  }
}
