/** The jitter buffer: a pool of fixed-size slots, an index array kept in timestamp order by binary
    search, a stack of free slots and a counting semaphore. */
module AudioBuffer {
  import opened MachineIntegers
  import opened Rtp

  const AAC_FRAMES_PER_PACKET := 352
  const AUDIO_MAX_CHANNELS := 2
  const FRAME_HEADER_BYTES := 8
  const BYTES_PER_FRAME := FRAME_HEADER_BYTES + AAC_FRAMES_PER_PACKET * AUDIO_MAX_CHANNELS * 2

  /** One instant of PCM: one 16-bit value per channel. */
  type Sample = seq<int>

  /** A stored frame. `at` is the sender's unbounded media position; the firmware only ever holds its
      low 32 bits, `Ts()`. */
  datatype Frame = Frame(at: int, channels: nat, pcm: seq<Sample>) {
    function Ts(): Uint32 { Wrap32(at) }

    /** The item size the buffer reports for this frame. */
    function Bytes(): nat { FRAME_HEADER_BYTES + |pcm| * channels * 2 }
  }

  // ---------- the contents as a value ----------

  /** For each buffered frame: does it come before timestamp `ts`? */
  function Before(q: seq<Frame>, ts: Uint32): (r: seq<bool>)
    ensures |r| == |q|
  {
    seq(|q|, i requires 0 <= i < |q| => TsCmp(q[i].Ts(), ts) < 0)
  }

  function Mid(lo: nat, hi: nat): (mid: nat)
    requires lo < hi
    ensures lo <= mid < hi
  {
    lo + (hi - lo) / 2
  }

  /** Binary search for the first `false` in the bracket [lo, hi). */
  function SearchPos(before: seq<bool>, lo: nat, hi: nat): (p: nat)
    requires lo <= hi <= |before|
    ensures lo <= p <= hi
    decreases hi - lo
  {
    if lo == hi then lo
    else
      var mid := Mid(lo, hi);
      if before[mid] then SearchPos(before, mid + 1, hi) else SearchPos(before, lo, mid)
  }

  function Insert(q: seq<Frame>, f: Frame): (r: seq<Frame>)
    ensures |r| == |q| + 1
  {
    var p := SearchPos(Before(q, f.Ts()), 0, |q|);
    q[..p] + [f] + q[p..]
  }

  /** Queue one chunk into a buffer of `capacity` slots, `held` of which the consumer has not returned. */
  function QueueChunk(q: seq<Frame>, capacity: nat, held: nat, f: Frame): (r: (seq<Frame>, bool))
  {
    if |f.pcm| == 0 then (q, false)
    else
      var q1 := if |q| >= capacity && |q| > 0 then q[1..] else q;
      if |q1| + held >= capacity then (q1, false) else (Insert(q1, f), true)
  }

  /** Cut decoded PCM every 352 samples and queue the pieces until one is refused. */
  function QueuePcm(q: seq<Frame>, capacity: nat, held: nat, at: int, channels: nat, pcm: seq<Sample>)
    : (r: (seq<Frame>, bool))
    decreases |pcm|
  {
    if |pcm| == 0 then (q, true)
    else
      var n := if |pcm| > AAC_FRAMES_PER_PACKET then AAC_FRAMES_PER_PACKET else |pcm|;
      var (q1, ok) := QueueChunk(q, capacity, held, Frame(at, channels, pcm[..n]));
      if ok then QueuePcm(q1, capacity, held, at + n, channels, pcm[n..]) else (q1, false)
  }

  /** A decoded packet cut every 352 samples. */
  function Chunks(at: int, channels: nat, pcm: seq<Sample>): seq<Frame>
    decreases |pcm|
  {
    if |pcm| == 0 then []
    else
      var n := if |pcm| > AAC_FRAMES_PER_PACKET then AAC_FRAMES_PER_PACKET else |pcm|;
      [Frame(at, channels, pcm[..n])] + Chunks(at + n, channels, pcm[n..])
  }

  function EffectiveChannels(channels: int): nat {
    if channels <= 0 then 2 else channels
  }

  function QueueDecoded(q: seq<Frame>, capacity: nat, held: nat, at: int, channels: int, pcm: seq<Sample>)
    : (r: (seq<Frame>, bool))
  {
    if |pcm| == 0 then (q, false)
    else QueuePcm(q, capacity, held, at, EffectiveChannels(channels), pcm)
  }

  // ---------- the slot pool ----------

  function Range(n: nat): seq<nat> {
    seq(n, i => i)
  }

  /** Queued, free and taken slots are together the slots 0 .. n-1, each exactly once. */
  ghost predicate Partition(queued: seq<nat>, free: seq<nat>, taken: multiset<nat>, n: nat) {
    multiset(queued) + multiset(free) + taken == multiset(Range(n))
  }

  lemma {:induction false} SlotIsUnique(n: nat, s: nat)
    ensures multiset(Range(n))[s] == if s < n then 1 else 0
  {
    if n > 0 {
      SlotIsUnique(n - 1, s);
      assert Range(n) == Range(n - 1) + [n - 1];
    } else {
      assert Range(0) == [];
    }
  }

  lemma PartitionCounts(queued: seq<nat>, free: seq<nat>, taken: multiset<nat>, n: nat)
    requires Partition(queued, free, taken, n)
    ensures |queued| + |free| + |taken| == n
    ensures forall s :: s in free || s in taken ==> s < n
    ensures forall s :: s in taken ==> s !in queued
  {
    assert |multiset(queued) + multiset(free) + taken| == |queued| + |free| + |taken|;
    forall s | s in free || s in taken ensures s < n && (s in taken ==> s !in queued) {
      SlotIsUnique(n, s);
      assert s in queued ==> s in multiset(queued);
      assert s in free ==> s in multiset(free);
    }
  }

  lemma PartitionPop(queued: seq<nat>, free: seq<nat>, taken: multiset<nat>, n: nat)
    requires Partition(queued, free, taken, n) && |queued| > 0
    ensures Partition(queued[1..], free, taken + multiset{queued[0]}, n)
  {
    assert queued == [queued[0]] + queued[1..];
  }

  lemma PartitionInsert(queued: seq<nat>, free: seq<nat>, taken: multiset<nat>, n: nat, pos: nat, slot: nat)
    requires Partition(queued, free, taken, n) && pos <= |queued| && slot in taken
    ensures Partition(queued[..pos] + [slot] + queued[pos..], free, taken - multiset{slot}, n) && |taken| > 0
  {
    assert queued == queued[..pos] + queued[pos..];
    assert taken == (taken - multiset{slot}) + multiset{slot};
  }

  lemma PartitionReturn(queued: seq<nat>, free: seq<nat>, taken: multiset<nat>, n: nat, slot: nat)
    requires Partition(queued, free, taken, n) && slot in taken
    ensures Partition(queued, free + [slot], taken - multiset{slot}, n) && |taken| > 0
  {
    assert taken == (taken - multiset{slot}) + multiset{slot};
  }

  ghost predicate Below(idx: seq<nat>, n: nat) {
    forall i :: 0 <= i < |idx| ==> idx[i] < n
  }

  /** `q` lists the pool's frames in the order of the indices. */
  ghost predicate Lists(q: seq<Frame>, pool: seq<Frame>, idx: seq<nat>) {
    && |q| == |idx|
    && Below(idx, |pool|)
    && forall i :: 0 <= i < |idx| ==> q[i] == pool[idx[i]]
  }

  lemma ListsPop(q: seq<Frame>, pool: seq<Frame>, idx: seq<nat>)
    requires Lists(q, pool, idx) && |idx| > 0
    ensures Lists(q[1..], pool, idx[1..])
  {
  }

  lemma ListsInsert(q: seq<Frame>, pool: seq<Frame>, idx: seq<nat>, pos: nat, slot: nat)
    requires Lists(q, pool, idx) && pos <= |idx| && slot < |pool|
    ensures Lists(q[..pos] + [pool[slot]] + q[pos..], pool, idx[..pos] + [slot] + idx[pos..])
  {
  }

  class AudioBuffer {
    const capacity: nat
    const pool: array<Frame>
    const sorted: array<nat>
    const freeStack: array<nat>
    var count: nat
    var freeTop: nat
    var dataReady: nat              // tokens of the counting semaphore
    ghost var contents: seq<Frame>  // the buffered frames, oldest first
    ghost var taken: multiset<nat>  // slots in neither list: the consumer's, and one being filled

    ghost predicate Shaped()
      reads this
    {
      && pool.Length == sorted.Length == freeStack.Length == capacity
      && sorted != freeStack
      && count <= capacity
      && freeTop <= capacity
    }

    /** Slot conservation, one semaphore token per queued frame, and the frames in index order. */
    ghost predicate Valid()
      reads this, pool, sorted, freeStack
    {
      && Shaped()
      && dataReady == count
      && Lists(contents, pool[..], sorted[..count])
      && Partition(sorted[..count], freeStack[..freeTop], taken, capacity)
    }

    /** audio_buffer_init */
    constructor (capacity: nat)
      ensures Valid() && fresh(pool) && fresh(sorted) && fresh(freeStack)
      ensures this.capacity == capacity && contents == [] && taken == multiset{}
    {
      this.capacity := capacity;
      pool := new Frame[capacity](_ => Frame(0, 0, []));
      sorted := new nat[capacity](_ => 0);
      freeStack := new nat[capacity](i => i);
      count, freeTop, dataReady, contents, taken := 0, capacity, 0, [], multiset{};
      new;
      assert freeStack[..freeTop] == Range(capacity);
    }

    /** The binary search loop. */
    method SortedInsertPos(ts: Uint32) returns (lo: nat)
      requires Valid()
      ensures lo == SearchPos(Before(contents, ts), 0, count)
    {
      ghost var before := Before(contents, ts);
      var hi := count;
      lo := 0;
      while lo < hi
        invariant lo <= hi <= count
        invariant SearchPos(before, lo, hi) == SearchPos(before, 0, count)
      {
        var mid := Mid(lo, hi);
        var f := At(mid);
        if TsCmp(f.Ts(), ts) < 0 {
          lo := mid + 1;
        } else {
          hi := mid;
        }
      }
    }

    method At(i: nat) returns (f: Frame)
      requires Valid() && i < count
      ensures f == contents[i]
    {
      assert sorted[i] == sorted[..count][i];
      f := pool[sorted[i]];
    }

    method ShiftLeft()
      requires Shaped() && count > 0
      modifies sorted
      ensures forall i :: 0 <= i < count - 1 ==> sorted[i] == old(sorted[i + 1])
    {
      forall i | 0 <= i < count - 1 {
        sorted[i] := sorted[i + 1];
      }
    }

    method ShiftRight(pos: nat, slot: nat)
      requires Shaped() && pos <= count < capacity
      modifies sorted
      ensures sorted[..count + 1] == old(sorted[..count])[..pos] + [slot] + old(sorted[..count])[pos..]
    {
      forall i | pos < i <= count {
        sorted[i] := sorted[i - 1];
      }
      sorted[pos] := slot;
    }

    /** Take one semaphore token and remove the oldest index; its slot is now in hand. */
    method PopOldest() returns (slot: nat)
      requires Valid() && count > 0
      modifies this`count, this`dataReady, this`contents, this`taken, sorted
      ensures Valid() && count == old(count) - 1
      ensures contents == old(contents)[1..]
      ensures taken == old(taken) + multiset{slot}
      ensures slot < capacity && pool[slot] == old(contents)[0]
    {
      ghost var s, f, p := sorted[..count], freeStack[..freeTop], pool[..];
      ghost var s1, taken1, contents1 := s[1..], taken + multiset{s[0]}, contents[1..];
      assert Lists(contents1, p, s1) && Partition(s1, f, taken1, capacity) by {
        PartitionPop(s, f, taken, capacity);
        ListsPop(contents, p, s);
      }
      slot := sorted[0];
      ShiftLeft();
      count := count - 1;
      dataReady := dataReady - 1;
      contents, taken := contents1, taken1;
      assert sorted[..count] == s1 && freeStack[..freeTop] == f && pool[..] == p;
    }

    /** Pop a free slot; it is now in hand. */
    method PopFree() returns (slot: nat)
      requires Valid() && freeTop > 0
      modifies this`freeTop, this`taken
      ensures Valid() && freeTop == old(freeTop) - 1
      ensures taken == old(taken) + multiset{slot} && slot < capacity
    {
      ghost var f := freeStack[..freeTop];
      PartitionCounts(sorted[..count], f, taken, capacity);
      freeTop := freeTop - 1;
      slot := freeStack[freeTop];
      assert f == freeStack[..freeTop] + [slot] && slot in f;
      taken := taken + multiset{slot};
    }

    /** Make room at `pos`, put the slot in hand there and give a token. */
    method InsertSlot(pos: nat, slot: nat)
      requires Valid() && pos <= count && slot in taken
      modifies this`count, this`dataReady, this`contents, this`taken, sorted
      ensures Valid() && count == old(count) + 1
      ensures slot < capacity && contents == old(contents)[..pos] + [pool[slot]] + old(contents)[pos..]
      ensures taken == old(taken) - multiset{slot}
    {
      ghost var s, f, p := sorted[..count], freeStack[..freeTop], pool[..];
      PartitionCounts(s, f, taken, capacity);
      PartitionInsert(s, f, taken, capacity, pos, slot);
      ListsInsert(contents, pool[..], s, pos, slot);
      ShiftRight(pos, slot);
      count := count + 1;
      dataReady := dataReady + 1;
      contents := contents[..pos] + [pool[slot]] + contents[pos..];
      taken := taken - multiset{slot};
      assert sorted[..count] == s[..pos] + [slot] + s[pos..] && freeStack[..freeTop] == f && pool[..] == p;
    }

    /** audio_buffer_return */
    method Return(slot: nat)
      requires Valid() && slot in taken
      modifies this`freeTop, this`taken, freeStack
      ensures Valid() && freeTop == old(freeTop) + 1
      ensures taken == old(taken) - multiset{slot}
    {
      ghost var f := freeStack[..freeTop];
      PartitionCounts(sorted[..count], f, taken, capacity);
      PartitionReturn(sorted[..count], f, taken, capacity, slot);
      freeStack[freeTop] := slot;
      freeTop := freeTop + 1;
      taken := taken - multiset{slot};
      assert freeStack[..freeTop] == f + [slot];
    }

    /** audio_buffer_queue_chunk */
    method QueueOne(f: Frame) returns (ok: bool)
      requires Valid()
      modifies this, pool, sorted, freeStack
      ensures Valid() && taken == old(taken)
      ensures (contents, ok) == QueueChunk(old(contents), capacity, |taken|, f)
    {
      PartitionCounts(sorted[..count], freeStack[..freeTop], taken, capacity);
      if |f.pcm| == 0 {
        return false;
      }
      while count >= capacity && count > 0
        invariant Valid() && taken == old(taken)
        invariant contents == if count < old(count) then old(contents)[1..] else old(contents)
        invariant count == old(count) || (count == old(count) - 1 && old(count) == capacity)
      {
        var victim := PopOldest();
        Return(victim);
      }
      PartitionCounts(sorted[..count], freeStack[..freeTop], taken, capacity);
      if freeTop == 0 {
        return false;
      }
      Fill(f);
      return true;
    }

    method Fill(f: Frame)
      requires Valid() && freeTop > 0
      modifies this, pool, sorted, freeStack
      ensures Valid() && taken == old(taken)
      ensures contents == Insert(old(contents), f)
    {
      var slot := PopFree();
      PartitionCounts(sorted[..count], freeStack[..freeTop], taken, capacity);
      assert slot in taken;
      pool[slot] := f;
      var pos := SortedInsertPos(f.Ts());
      InsertSlot(pos, slot);
    }

    /** audio_buffer_queue_decoded */
    method QueueDecodedPacket(at: int, channels: int, pcm: seq<Sample>) returns (ok: bool)
      requires Valid()
      modifies this, pool, sorted, freeStack
      ensures Valid() && taken == old(taken)
      ensures (contents, ok) == QueueDecoded(old(contents), capacity, |taken|, at, channels, pcm)
    {
      if |pcm| == 0 {
        return false;
      }
      var ch := EffectiveChannels(channels);
      ghost var held := |taken|;
      ghost var goal := QueuePcm(contents, capacity, held, at, ch, pcm);
      var rest, pos := pcm, at;  // the PCM pointer and the chunk's timestamp
      while |rest| > 0
        invariant Valid() && taken == old(taken)
        invariant goal == QueuePcm(contents, capacity, held, pos, ch, rest)
        decreases |rest|
      {
        var n := if |rest| > AAC_FRAMES_PER_PACKET then AAC_FRAMES_PER_PACKET else |rest|;
        ok := QueueOne(Frame(pos, ch, rest[..n]));
        if !ok {
          return false;
        }
        rest, pos := rest[n..], pos + n;
      }
      ok := true;
    }

    /** audio_buffer_take: hands the oldest frame's slot to the consumer. */
    method Take() returns (ok: bool, slot: nat, f: Frame)
      requires Valid()
      modifies this, sorted
      ensures Valid()
      ensures ok == (|old(contents)| > 0)
      ensures !ok ==> contents == old(contents) && taken == old(taken)
      ensures ok ==> f == old(contents)[0] && contents == old(contents)[1..]
      ensures ok ==> taken == old(taken) + multiset{slot}
    {
      slot, f := 0, Frame(0, 0, []);
      if dataReady == 0 {
        return false, slot, f;
      }
      slot := PopOldest();
      ok, f := true, pool[slot];
    }

    /** audio_buffer_flush */
    method Flush()
      requires Valid()
      modifies this, freeStack
      ensures Valid() && contents == [] && taken == old(taken)
    {
      var i := 0;
      ghost var s, f := sorted[..count], freeStack[..freeTop];
      PartitionCounts(s, f, taken, capacity);
      while i < count
        invariant i <= count == old(count) && freeTop == |f| + i && Shaped()
        invariant freeStack[..freeTop] == f + s[..i]
        invariant taken == old(taken) && dataReady == old(dataReady) && sorted[..count] == s
      {
        freeStack[freeTop] := sorted[i];
        freeTop := freeTop + 1;
        i := i + 1;
      }
      assert s[..i] == s;
      count := 0;
      contents := [];
      while dataReady > 0
        invariant Shaped() && count == 0 && contents == [] && taken == old(taken) && freeStack[..freeTop] == f + s
      {
        dataReady := dataReady - 1;
      }
    }

    /** audio_buffer_get_frame_count */
    method FrameCount() returns (frames: nat)
      requires Valid()
      ensures frames == |contents|
    {
      frames := count;
    }

    /** audio_buffer_oldest_timestamp */
    method OldestTimestamp() returns (ok: bool, ts: Uint32)
      requires Valid()
      ensures ok == (|contents| > 0)
      ensures ok ==> ts == contents[0].Ts()
    {
      if count == 0 {
        return false, 0;
      }
      var f := At(0);
      return true, f.Ts();
    }
  }
}
