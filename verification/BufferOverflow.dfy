/** A buffer that overflows: the oldest frames make room, one for one, so that what is left is the newest
    the pool can hold. */
module BufferOverflow {
  import opened AudioBuffer
  import opened ArrivalOrder
  import opened InOrderPlayout

  /** The last `capacity` frames, or all of them. */
  function Newest(log: seq<Frame>, capacity: nat): seq<Frame> {
    if |log| > capacity then log[|log| - capacity..] else log
  }

  lemma ChunkKeepsNewest(log: seq<Frame>, capacity: nat, f: Frame)
    requires capacity > 0 && |f.pcm| > 0 && Ordered(log + [f]) && Windowed(log + [f], capacity)
    ensures QueueChunk(Newest(log, capacity), capacity, 0, f) == (Newest(log + [f], capacity), true)
  {
    hide Insert, Ordered, Windowed;
    var q := Newest(log, capacity);
    var q1 := if |q| >= capacity then q[1..] else q;
    assert Tail(q1, log);
    InsertGoesLast(q1, capacity, f, log);
    assert q1 + [f] == Newest(log + [f], capacity);
  }

  lemma {:induction false} PcmKeepsNewest(log: seq<Frame>, capacity: nat, at: int, channels: nat, pcm: seq<Sample>)
    requires capacity > 0
    requires Ordered(log + Chunks(at, channels, pcm)) && Windowed(log + Chunks(at, channels, pcm), capacity)
    ensures QueuePcm(Newest(log, capacity), capacity, 0, at, channels, pcm)
         == (Newest(log + Chunks(at, channels, pcm), capacity), true)
    decreases |pcm|
  {
    hide QueueChunk, Ordered, Windowed, Newest;
    if |pcm| == 0 {
      assert log + [] == log;
    } else {
      var n := if |pcm| > AAC_FRAMES_PER_PACKET then AAC_FRAMES_PER_PACKET else |pcm|;
      var f := Frame(at, channels, pcm[..n]);
      var rest := Chunks(at + n, channels, pcm[n..]);
      assert log + ([f] + rest) == (log + [f]) + rest;
      PrefixOfOrdered(log + [f], rest, capacity);
      ChunkKeepsNewest(log, capacity, f);
      PcmKeepsNewest(log + [f], capacity, at + n, channels, pcm[n..]);
    }
  }

  lemma EmptyPacket(log: seq<Frame>, p: Packet)
    ensures p.pcm == [] ==> log + p.Pieces() == log
  {
  }

  lemma {:induction false} PacketsKeepNewest(log: seq<Frame>, capacity: nat, ps: seq<Packet>)
    requires capacity > 0 && Ordered(log + AllPieces(ps)) && Windowed(log + AllPieces(ps), capacity)
    ensures QueueAll(Newest(log, capacity), capacity, 0, ps) == Newest(log + AllPieces(ps), capacity)
    decreases |ps|
  {
    hide QueuePcm, Chunks, Ordered, Windowed, Newest;
    if ps == [] {
      assert log + [] == log;
    } else {
      var p, rest := ps[0], AllPieces(ps[1..]);
      assert log + (p.Pieces() + rest) == (log + p.Pieces()) + rest;
      PrefixOfOrdered(log + p.Pieces(), rest, capacity);
      PcmKeepsNewest(log, capacity, p.at, EffectiveChannels(p.channels), p.pcm);
      EmptyPacket(log, p);
      PacketsKeepNewest(log + p.Pieces(), capacity, ps[1..]);
    }
  }

  /** Packets in order, however many: an empty buffer with no slot out ends with exactly the newest frames
      its pool can hold, in order. */
  lemma {:induction false} OverflowKeepsNewest(capacity: nat, ps: seq<Packet>)
    requires capacity > 0 && Ordered(AllPieces(ps)) && Windowed(AllPieces(ps), capacity)
    ensures QueueAll([], capacity, 0, ps) == Newest(AllPieces(ps), capacity)
  {
    assert [] + AllPieces(ps) == AllPieces(ps);
    PacketsKeepNewest([], capacity, ps);
  }
}
