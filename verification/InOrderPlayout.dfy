/** Frames come out in order: over any run, with seeks, flushes, pauses and anchors at any point,
    the frames played are a strictly increasing subsequence of the frames queued. */
module InOrderPlayout {
  import opened MachineIntegers
  import opened Rtp
  import opened AudioBuffer
  import opened ArrivalOrder
  import opened AudioTiming
  import opened AudioReceiver
  import opened PlayoutRuns
  import opened Wrappers

  // ---------- what a run queues and plays ----------

  /** The chunks of a packet that go into the buffer: up to the first one refused. */
  function Taken(q: seq<Frame>, capacity: nat, held: nat, at: int, channels: nat, pcm: seq<Sample>): seq<Frame>
    decreases |pcm|
  {
    if |pcm| == 0 then []
    else
      var n := if |pcm| > AAC_FRAMES_PER_PACKET then AAC_FRAMES_PER_PACKET else |pcm|;
      var f := Frame(at, channels, pcm[..n]);
      var (q1, ok) := QueueChunk(q, capacity, held, f);
      if ok then [f] + Taken(q1, capacity, held, at + n, channels, pcm[n..]) else []
  }

  /** The chunks a call puts in the buffer. */
  function Accepted(r: Receiver, c: Call): seq<Frame> {
    if c.Feed? && Gate(r, Wrap32(c.at)).1
    then Taken(r.q, r.capacity, r.held, c.at, EffectiveChannels(c.channels), c.pcm)
    else []
  }

  function Queued(r: Receiver, calls: seq<Call>): seq<Frame>
    decreases |calls|
  {
    if calls == [] then [] else Accepted(r, calls[0]) + Queued(After(r, calls[0]).0, calls[1..])
  }

  function PlayedBy(e: Event): seq<Frame> {
    if e.Played? then [e.f] else []
  }

  function PlayedFrames(events: seq<Event>): seq<Frame>
    decreases |events|
  {
    if events == [] then [] else PlayedBy(events[0]) + PlayedFrames(events[1..])
  }

  ghost predicate Subsequence(a: seq<Frame>, b: seq<Frame>)
    decreases |b|
  {
    a == [] || (b != [] && if a[0] == b[0] then Subsequence(a[1..], b[1..]) else Subsequence(a, b[1..]))
  }

  /** Any `capacity` + 1 consecutive frames span less than half the timestamp range. */
  ghost predicate Windowed(log: seq<Frame>, capacity: nat) {
    forall i, j :: 0 <= i <= j < |log| && j - i <= capacity ==> log[j].at - log[i].at < TWO31
  }

  // ---------- the invariant ----------

  ghost predicate Tail(q: seq<Frame>, log: seq<Frame>) {
    |q| <= |log| && log[|log| - |q|..] == q
  }

  /** The frames that have left the buffer, one way or another. */
  ghost function Gone(q: seq<Frame>, log: seq<Frame>): seq<Frame>
    requires |q| <= |log|
  {
    log[..|log| - |q|]
  }

  ghost predicate AllBefore(fs: seq<Frame>, at: int) {
    forall i :: 0 <= i < |fs| ==> fs[i].at < at
  }

  ghost predicate AllIn(fs: seq<Frame>, all: seq<Frame>) {
    forall i :: 0 <= i < |fs| ==> fs[i] in all
  }

  ghost predicate InOrder(t: Timing, q: seq<Frame>, log: seq<Frame>, played: seq<Frame>) {
    && Tail(q, log)
    && Ordered(played)
    && AllIn(played, Gone(q, log))
    && (t.pendingValid ==> t.pending in Gone(q, log) && AllBefore(played, t.pending.at))
  }

  /** No more frames are queued than the slots that are not out. */
  predicate InPool(r: Receiver) {
    |r.q| + r.held <= r.capacity
  }

  // ---------- reading ----------

  function Lost(leaked: bool): nat {
    if leaked then 1 else 0
  }

  lemma {:induction false} AttemptsShrink(t: Timing, q: seq<Frame>, env: Env, n: nat)
    ensures var o := Attempts(t, q, env, n); |o.q| + Lost(o.leaked) <= |q|
    decreases n
  {
    hide Attempt;
    if n > 0 {
      AttemptShrinks(t, q, env);
      var s := Attempt(t, q, env);
      if s.done == None {
        AttemptsShrink(s.t, s.q, env, n - 1);
      }
    }
  }

  /** A slot kept is that of a frame taken. */
  lemma AttemptShrinks(t: Timing, q: seq<Frame>, env: Env)
    ensures var s := Attempt(t, q, env); |s.q| + Lost(s.leaked) <= |q| && (s.done == None ==> !s.leaked)
  {
    hide Judge, Count;
  }

  lemma {:induction false} ReadShrinks(t: Timing, q: seq<Frame>, env: Env)
    ensures var o := Read(t, q, env); |o.q| + Lost(o.leaked) <= |q|
  {
    hide Attempts;
    AttemptsShrink(Gated(t, q, env), q, env, MAX_ATTEMPTS);
  }

  lemma SettleShape(t: Timing, q: seq<Frame>, f: Frame, len: nat, fromPending: bool, v: Verdict)
    ensures var s := Settle(t, q, f, len, fromPending, v);
            && (s.q == q || s.q == [])
            && s.t.pendingCapacity == t.pendingCapacity
            && (s.leaked ==> len > t.pendingCapacity && !fromPending)
            && (s.done.Some? && s.done.value.Played? ==> s.done.value.f == f && (fromPending ==> !s.t.pendingValid))
            && (s.t.pendingValid ==>
                  (t.pendingValid && s.t.pending == t.pending) ||
                  (!fromPending && s.done == Some(Silence) && s.t.pending == f))
  {
  }

  lemma CountKeepsPending(t: Timing, v: Verdict, env: Env)
    ensures var c := Count(t, v, env);
            c.pendingValid == t.pendingValid && c.pending == t.pending && c.pendingCapacity == t.pendingCapacity
  {
  }

  function DonePlayed(done: Option<Event>): seq<Frame> {
    if done.Some? then PlayedBy(done.value) else []
  }

  lemma FlushKeepsOrder(t: Timing, q: seq<Frame>, q1: seq<Frame>, log: seq<Frame>, played: seq<Frame>)
    requires InOrder(t, q, log, played) && (q1 == q || q1 == [])
    ensures InOrder(t, q1, log, played)
  {
  }

  /** The frame in hand is the pending one. */
  lemma PendingKeepsOrder(t: Timing, q: seq<Frame>, len: nat, env: Env, log: seq<Frame>, played: seq<Frame>)
    requires InOrder(t, q, log, played) && t.pendingValid
    ensures var s := Act(t, q, t.pending, len, true, env);
            InOrder(s.t, s.q, log, played + DonePlayed(s.done))
  {
    hide Judge, Settle, Count;
    var v := Judge(t, t.pending, len, env);
    var c := Count(t, v, env);
    CountKeepsPending(t, v, env);
    SettleShape(c, q, t.pending, len, true, v);
    var s := Settle(c, q, t.pending, len, true, v);
    FlushKeepsOrder(t, q, s.q, log, played);
  }

  /** Taking the oldest frame: it is past everything that left before it. */
  lemma TakeKeepsOrder(t: Timing, q: seq<Frame>, log: seq<Frame>, played: seq<Frame>)
    requires InOrder(t, q, log, played) && Ordered(log) && q != []
    ensures InOrder(t, q[1..], log, played)
    ensures q[0] in Gone(q[1..], log) && AllBefore(played, q[0].at)
  {
    var k := |log| - |q|;
    assert q[0] == log[k];
    assert Gone(q[1..], log) == Gone(q, log) + [q[0]];
    forall i | 0 <= i < |played| ensures played[i].at < q[0].at {
      assert played[i] in Gone(q, log);
    }
  }

  lemma TakenKeepsOrder(t: Timing, q: seq<Frame>, env: Env, log: seq<Frame>, played: seq<Frame>)
    requires InOrder(t, q, log, played) && Ordered(log) && q != [] && !t.pendingValid
    ensures var s := Act(t, q[1..], q[0], q[0].Bytes(), false, env);
            InOrder(s.t, s.q, log, played + DonePlayed(s.done))
  {
    hide Judge, Settle, Count;
    var f, len := q[0], q[0].Bytes();
    var v := Judge(t, f, len, env);
    var c := Count(t, v, env);
    CountKeepsPending(t, v, env);
    SettleShape(c, q[1..], f, len, false, v);
    TakeKeepsOrder(t, q, log, played);
    var s := Settle(c, q[1..], f, len, false, v);
    FlushKeepsOrder(t, q[1..], s.q, log, played);
    assert forall x :: x in Gone(q[1..], log) ==> x in Gone(s.q, log);
  }

  lemma AttemptKeepsOrder(t: Timing, q: seq<Frame>, env: Env, log: seq<Frame>, played: seq<Frame>)
    requires InOrder(t, q, log, played) && Ordered(log)
    ensures var s := Attempt(t, q, env);
            InOrder(s.t, s.q, log, played + DonePlayed(s.done))
  {
    hide Act;
    assert played + [] == played;
    if t.pendingValid {
      PendingKeepsOrder(t, q, t.pendingLen, env, log, played);
    } else if q != [] {
      TakenKeepsOrder(t, q, env, log, played);
    }
  }

  lemma {:induction false} AttemptsKeepOrder(t: Timing, q: seq<Frame>, env: Env, n: nat, log: seq<Frame>,
                                             played: seq<Frame>)
    requires InOrder(t, q, log, played) && Ordered(log)
    ensures var o := Attempts(t, q, env, n);
            InOrder(o.t, o.q, log, played + PlayedBy(o.event))
    decreases n
  {
    hide Attempt, InOrder, Ordered;
    assert played + [] == played;
    if n > 0 {
      AttemptKeepsOrder(t, q, env, log, played);
      var s := Attempt(t, q, env);
      if s.done == None {
        AttemptsKeepOrder(s.t, s.q, env, n - 1, log, played);
      }
    }
  }

  lemma {:induction false} ReadKeepsOrder(t: Timing, q: seq<Frame>, env: Env, log: seq<Frame>, played: seq<Frame>)
    requires InOrder(t, q, log, played) && Ordered(log)
    ensures var o := Read(t, q, env);
            InOrder(o.t, o.q, log, played + PlayedBy(o.event))
  {
    hide Attempts;
    assert played + [] == played;
    AttemptsKeepOrder(Gated(t, q, env), q, env, MAX_ATTEMPTS, log, played);
  }

  // ---------- feeding ----------

  lemma {:induction false} SearchGoesLast(before: seq<bool>, lo: nat)
    requires lo <= |before| && forall i :: 0 <= i < |before| ==> before[i]
    ensures SearchPos(before, lo, |before|) == |before|
    decreases |before| - lo
  {
    if lo < |before| {
      SearchGoesLast(before, Mid(lo, |before|) + 1);
    }
  }

  /** A frame past everything queued goes to the end; at capacity the oldest makes room. */
  lemma ChunkGoesLast(q: seq<Frame>, capacity: nat, held: nat, f: Frame, log: seq<Frame>)
    requires Tail(q, log) && |q| + held <= capacity && |f.pcm| > 0
    requires var ok := QueueChunk(q, capacity, held, f).1;
             ok ==> Ordered(log + [f]) && Windowed(log + [f], capacity)
    ensures var (q1, ok) := QueueChunk(q, capacity, held, f);
            && |q1| + held <= capacity && Tail(q1, if ok then log + [f] else log)
            && |q1| <= |q| + if ok then 1 else 0
  {
    hide Insert, Ordered, Windowed, TsCmp;
    if QueueChunk(q, capacity, held, f).1 {
      InsertGoesLast(if |q| >= capacity then q[1..] else q, capacity, f, log);
    }
  }

  lemma InsertGoesLast(q: seq<Frame>, capacity: nat, f: Frame, log: seq<Frame>)
    requires Tail(q, log) && |q| <= capacity && Ordered(log + [f]) && Windowed(log + [f], capacity)
    ensures Insert(q, f) == q + [f]
  {
    hide TsCmp;
    var before, all, k := Before(q, f.Ts()), log + [f], |log| - |q|;
    forall i | 0 <= i < |q| ensures before[i] {
      assert q[i] == all[k + i] && all[|log|] == f;
      TsCmpIsDistance(q[i].at, f.at);
    }
    SearchGoesLast(before, 0);
  }

  lemma PrefixOfOrdered(a: seq<Frame>, b: seq<Frame>, capacity: nat)
    requires Ordered(a + b) && Windowed(a + b, capacity)
    ensures Ordered(a) && Windowed(a, capacity)
  {
    assert forall i :: 0 <= i < |a| ==> (a + b)[i] == a[i];
  }

  lemma {:induction false} PcmGoesLast(q: seq<Frame>, capacity: nat, held: nat, at: int, channels: nat,
                                       pcm: seq<Sample>, log: seq<Frame>)
    requires Tail(q, log) && |q| + held <= capacity
    requires var more := Taken(q, capacity, held, at, channels, pcm);
             Ordered(log + more) && Windowed(log + more, capacity)
    ensures var q1 := QueuePcm(q, capacity, held, at, channels, pcm).0;
            var more := Taken(q, capacity, held, at, channels, pcm);
            |q1| + held <= capacity && Tail(q1, log + more) && |q1| <= |q| + |more|
    decreases |pcm|
  {
    hide QueueChunk, Ordered, Windowed, Tail;
    if |pcm| == 0 {
      assert log + [] == log;
    } else {
      var n := if |pcm| > AAC_FRAMES_PER_PACKET then AAC_FRAMES_PER_PACKET else |pcm|;
      var f := Frame(at, channels, pcm[..n]);
      var (q1, ok) := QueueChunk(q, capacity, held, f);
      var rest := Taken(q1, capacity, held, at + n, channels, pcm[n..]);
      if ok {
        assert log + ([f] + rest) == (log + [f]) + rest;
        PrefixOfOrdered(log + [f], rest, capacity);
      } else {
        assert log + [] == log;
      }
      ChunkGoesLast(q, capacity, held, f, log);
      if ok {
        PcmGoesLast(q1, capacity, held, at + n, channels, pcm[n..], log + [f]);
      }
    }
  }

  /** What goes in of a packet is a first part of its chunks, and all of them when no slot is out. */
  lemma {:induction false} TakenFromChunks(q: seq<Frame>, capacity: nat, held: nat, at: int, channels: nat,
                                           pcm: seq<Sample>)
    requires |q| + held <= capacity
    ensures Taken(q, capacity, held, at, channels, pcm) <= Chunks(at, channels, pcm)
    ensures held == 0 < capacity ==> Taken(q, capacity, held, at, channels, pcm) == Chunks(at, channels, pcm)
    decreases |pcm|
  {
    hide Insert;
    if |pcm| > 0 {
      var n := if |pcm| > AAC_FRAMES_PER_PACKET then AAC_FRAMES_PER_PACKET else |pcm|;
      var (q1, ok) := QueueChunk(q, capacity, held, Frame(at, channels, pcm[..n]));
      if ok {
        TakenFromChunks(q1, capacity, held, at + n, channels, pcm[n..]);
      }
    }
  }

  /** Frames stay gone when more are queued. */
  lemma FeedKeepsOrder(t: Timing, q: seq<Frame>, q1: seq<Frame>, log: seq<Frame>, log1: seq<Frame>, played: seq<Frame>)
    requires InOrder(t, q, log, played) && Tail(q1, log1) && log <= log1 && |log1| - |q1| >= |log| - |q|
    ensures InOrder(t, q1, log1, played)
  {
    assert forall x :: x in Gone(q, log) ==> x in Gone(q1, log1);
  }

  // ---------- runs ----------

  ghost predicate Sound(r: Receiver, log: seq<Frame>, played: seq<Frame>) {
    InOrder(r.t, r.q, log, played) && InPool(r)
  }

  lemma FeedKeepsSound(r: Receiver, c: Call, log: seq<Frame>, played: seq<Frame>)
    requires Sound(r, log, played) && c.Feed?
    requires Ordered(log + Accepted(r, c)) && Windowed(log + Accepted(r, c), r.capacity)
    ensures Sound(After(r, c).0, log + Accepted(r, c), played) && After(r, c).0.capacity == r.capacity
  {
    hide QueuePcm, Taken, TsCmp;
    assert log + [] == log;
    if Gate(r, Wrap32(c.at)).1 {
      var ch := EffectiveChannels(c.channels);
      PcmGoesLast(r.q, r.capacity, r.held, c.at, ch, c.pcm, log);
      if |c.pcm| > 0 {
        var q1 := QueuePcm(r.q, r.capacity, r.held, c.at, ch, c.pcm).0;
        FeedKeepsOrder(r.t, r.q, q1, log, log + Accepted(r, c), played);
      } else {
        NothingTaken(r.q, r.capacity, r.held, c.at, ch);
        assert c.pcm == [];
      }
    }
  }

  lemma NothingTaken(q: seq<Frame>, capacity: nat, held: nat, at: int, channels: nat)
    ensures Taken(q, capacity, held, at, channels, []) == []
  {
  }

  /** Anchors, pauses and flushes only ever empty the buffer or the pending copy. */
  lemma ControlKeepsSound(r: Receiver, c: Call, log: seq<Frame>, played: seq<Frame>)
    requires Sound(r, log, played) && !c.Feed? && !c.ReadCall?
    ensures Sound(After(r, c).0, log, played) && After(r, c).0.capacity == r.capacity
  {
    hide TsCmp, Displaced, Read, QueueDecoded, Gate;
    var r1 := After(r, c).0;
    assert r1.q == r.q || r1.q == [];
    assert r1.t.pendingValid ==> r.t.pendingValid && r1.t.pending == r.t.pending;
    assert r1.held == r.held;
    FlushKeepsOrder(r.t, r.q, [], log, played);
  }

  lemma CallKeepsSound(r: Receiver, c: Call, log: seq<Frame>, played: seq<Frame>)
    requires Sound(r, log, played)
    requires Ordered(log + Accepted(r, c)) && Windowed(log + Accepted(r, c), r.capacity)
    ensures var (r1, e) := After(r, c);
            Sound(r1, log + Accepted(r, c), played + PlayedBy(e)) && r1.capacity == r.capacity
  {
    hide Read, TsCmp, Gate, CheckSeek, QueueDecoded, Ordered, Windowed, Taken, InOrder;
    assert played + [] == played && log + [] == log;
    if c.Feed? {
      FeedKeepsSound(r, c, log, played);
    } else if c.ReadCall? {
      PrefixOfOrdered(log, [], r.capacity);
      ReadKeepsOrder(r.t, r.q, c.env, log, played);
      ReadShrinks(r.t, r.q, c.env);
    } else {
      ControlKeepsSound(r, c, log, played);
    }
  }

  lemma {:induction false} RunKeepsSound(r: Receiver, calls: seq<Call>, log: seq<Frame>, played: seq<Frame>)
    requires Sound(r, log, played)
    requires Ordered(log + Queued(r, calls)) && Windowed(log + Queued(r, calls), r.capacity)
    ensures Sound(Run(r, calls), log + Queued(r, calls), played + PlayedFrames(Events(r, calls)))
    decreases |calls|
  {
    hide After, Accepted;
    if calls == [] {
      assert log + [] == log && played + [] == played;
    } else {
      var (r1, e) := After(r, calls[0]);
      var a, more := Accepted(r, calls[0]), Queued(r1, calls[1..]);
      assert log + (a + more) == (log + a) + more;
      PrefixOfOrdered(log + a, more, r.capacity);
      CallKeepsSound(r, calls[0], log, played);
      RunKeepsSound(r1, calls[1..], log + a, played + PlayedBy(e));
      var events := Events(r1, calls[1..]);
      assert ([e] + events)[1..] == events;
      assert played + (PlayedBy(e) + PlayedFrames(events)) == (played + PlayedBy(e)) + PlayedFrames(events);
    }
  }

  lemma {:induction false} OrderedSubsequence(a: seq<Frame>, b: seq<Frame>)
    requires Ordered(a) && Ordered(b) && AllIn(a, b)
    ensures Subsequence(a, b)
    decreases |b|
  {
    if a != [] {
      assert a[0] in b;
      OrderedTail(a);
      OrderedTail(b);
      if a[0] == b[0] {
        forall i | 0 <= i < |a[1..]| ensures a[1..][i] in b[1..] {
          assert a[1..][i] == a[i + 1] && a[0].at < a[i + 1].at;
        }
        OrderedSubsequence(a[1..], b[1..]);
      } else {
        forall i | 0 <= i < |a| ensures a[i] in b[1..] {
          assert a[i].at >= a[0].at > b[0].at;
        }
        OrderedSubsequence(a, b[1..]);
      }
    }
  }

  /** Over every run from a state with nothing queued or parked, whatever slots are out and however small
      the pending copy: when the chunks that go into the buffer are strictly increasing on the sender's
      timeline (and any buffer-full of them spans less than half the timestamp range), the frames played
      are a strictly increasing subsequence of them, each played at most once, frames parked in the
      pending copy included. */
  lemma {:induction false} PlayoutInOrder(r: Receiver, calls: seq<Call>)
    requires r.q == [] && !r.t.pendingValid && r.held <= r.capacity
    requires Ordered(Queued(r, calls)) && Windowed(Queued(r, calls), r.capacity)
    ensures var played := PlayedFrames(Events(r, calls));
            Ordered(played) && Subsequence(played, Queued(r, calls))
  {
    var log, played := Queued(r, calls), PlayedFrames(Events(r, calls));
    assert [] + log == log && [] + played == played;
    RunKeepsSound(r, calls, [], []);
    assert AllIn(played, log);
    OrderedSubsequence(played, log);
  }
}
