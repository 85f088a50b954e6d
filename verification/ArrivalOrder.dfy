/** Arrival order does not matter: whatever order packets arrive in, the jitter buffer holds their
    chunks in the order of the sender's timeline, across the wrap of the 32-bit timestamps. */
module ArrivalOrder {
  import opened Rtp
  import opened AudioBuffer

  datatype Packet = Packet(at: int, channels: int, pcm: seq<Sample>) {
    function Pieces(): seq<Frame> { Chunks(at, EffectiveChannels(channels), pcm) }
  }

  /** Strictly increasing on the sender's timeline. */
  ghost predicate Ordered(q: seq<Frame>) {
    forall i, j :: 0 <= i < j < |q| ==> q[i].at < q[j].at
  }

  /** All within one half-range of the 32-bit timestamp. */
  ghost predicate InWindow(q: seq<Frame>, base: int) {
    forall i :: 0 <= i < |q| ==> base <= q[i].at < base + TWO31
  }

  // ---------- one insertion ----------

  /** On a monotone input binary search finds the boundary. */
  lemma {:induction false} SearchFindsBoundary(before: seq<bool>, lo: nat, hi: nat)
    requires lo <= hi <= |before|
    requires forall i, j :: 0 <= i < j < |before| && before[j] ==> before[i]
    requires forall i :: 0 <= i < lo ==> before[i]
    requires forall i :: hi <= i < |before| ==> !before[i]
    ensures var p := SearchPos(before, lo, hi);
            (forall i :: 0 <= i < p ==> before[i]) && (forall i :: p <= i < |before| ==> !before[i])
    decreases hi - lo
  {
    if lo < hi {
      var mid := Mid(lo, hi);
      if before[mid] {
        SearchFindsBoundary(before, mid + 1, hi);
      } else {
        SearchFindsBoundary(before, lo, mid);
      }
    }
  }

  /** Inserting a new frame keeps the timeline order and adds exactly that frame. */
  lemma {:induction false} InsertKeepsOrder(q: seq<Frame>, f: Frame, base: int)
    requires Ordered(q) && InWindow(q, base) && base <= f.at < base + TWO31
    requires forall e :: e in q ==> e.at != f.at
    ensures Ordered(Insert(q, f))
    ensures multiset(Insert(q, f)) == multiset(q) + multiset{f}
  {
    var before := Before(q, f.Ts());
    forall i | 0 <= i < |q| ensures before[i] == (q[i].at < f.at) {
      TsCmpIsDistance(q[i].at, f.at);
    }
    SearchFindsBoundary(before, 0, |q|);
    InsertAtBoundary(q, f, SearchPos(before, 0, |q|));
  }

  lemma InsertAtBoundary(q: seq<Frame>, f: Frame, p: nat)
    requires Ordered(q) && p <= |q|
    requires forall i :: 0 <= i < p ==> q[i].at < f.at
    requires forall i :: p <= i < |q| ==> q[i].at >= f.at
    requires forall e :: e in q ==> e.at != f.at
    ensures Ordered(q[..p] + [f] + q[p..])
    ensures multiset(q[..p] + [f] + q[p..]) == multiset(q) + multiset{f}
  {
    assert q == q[..p] + q[p..];
    forall i | p <= i < |q| ensures q[i].at > f.at {
      assert q[i] in q;
    }
  }

  ghost predicate IsPlace(q: seq<Frame>, f: Frame, p: nat) {
    p <= |q| && (p > 0 ==> q[p - 1].at < f.at) && (p < |q| ==> f.at <= q[p].at)
  }

  /** With repeats in the buffer or not, a frame goes behind all earlier ones and before any of its own
      place. */
  lemma {:induction false} InsertFindsPlace(q: seq<Frame>, f: Frame, base: int)
    requires forall i, j :: 0 <= i < j < |q| ==> q[i].at <= q[j].at
    requires InWindow(q, base) && base <= f.at < base + TWO31
    ensures exists p: nat :: IsPlace(q, f, p) && Insert(q, f) == q[..p] + [f] + q[p..]
  {
    hide TsCmp;
    var before := Before(q, f.Ts());
    forall i | 0 <= i < |q| ensures before[i] == (q[i].at < f.at) {
      TsCmpIsDistance(q[i].at, f.at);
    }
    SearchFindsBoundary(before, 0, |q|);
    var p := SearchPos(before, 0, |q|);
    assert IsPlace(q, f, p) by {
      assert (p > 0 ==> before[p - 1]) && (p < |q| ==> !before[p]);
    }
  }

  // ---------- uniqueness of the ordered arrangement ----------

  lemma OrderedHeadIsLeast(q: seq<Frame>, r: seq<Frame>)
    requires Ordered(q) && Ordered(r) && multiset(q) == multiset(r) && |q| > 0
    ensures |r| > 0 && q[0] == r[0]
  {
    assert q[0] in multiset(r);
    assert r[0] in multiset(q);
  }

  lemma OrderedTail(q: seq<Frame>)
    requires Ordered(q) && |q| > 0
    ensures Ordered(q[1..])
  {
  }

  lemma RemoveHead<T>(a: seq<T>, b: seq<T>)
    requires |a| > 0 && |b| > 0 && a[0] == b[0] && multiset(a) == multiset(b)
    ensures multiset(a[1..]) == multiset(b[1..])
  {
    assert a == [a[0]] + a[1..] && b == [b[0]] + b[1..];
    AddCancels(multiset{a[0]}, multiset(a[1..]), multiset(b[1..]));
  }

  lemma AddCancels<T>(x: multiset<T>, y: multiset<T>, z: multiset<T>)
    requires x + y == x + z
    ensures y == z
  {
    assert y == (x + y) - x;
    assert z == (x + z) - x;
  }

  lemma {:induction false} OrderedIsUnique(q: seq<Frame>, r: seq<Frame>)
    requires Ordered(q) && Ordered(r) && multiset(q) == multiset(r)
    ensures q == r
    decreases |q|
  {
    if |q| == 0 {
      assert |multiset(r)| == 0;
    } else {
      OrderedHeadIsLeast(q, r);
      RemoveHead(q, r);
      OrderedTail(q);
      OrderedTail(r);
      OrderedIsUnique(q[1..], r[1..]);
    }
  }

  lemma {:induction false} OrderedHasNoRepeats(t: seq<Frame>, f: Frame)
    requires Ordered(t)
    ensures multiset(t)[f] <= 1
    decreases |t|
  {
    if |t| > 0 {
      OrderedHasNoRepeats(t[1..], f);
      assert t == [t[0]] + t[1..];
      if f == t[0] {
        assert f !in t[1..];
      }
    }
  }

  /** Frames drawn from an ordered timeline sit at different positions. */
  lemma DrawnAreDistinct(q: seq<Frame>, f: Frame, t: seq<Frame>)
    requires Ordered(t) && multiset(q) + multiset{f} <= multiset(t)
    ensures forall e :: e in q ==> e.at != f.at
  {
    forall e | e in q ensures e.at != f.at {
      assert e in multiset(q) && e in multiset(t) && f in multiset(t);
      OrderedHasNoRepeats(t, f);
      assert multiset(t)[f] >= multiset(q)[f] + 1;
    }
  }

  // ---------- any number of insertions ----------

  function InsertAll(q: seq<Frame>, fs: seq<Frame>): seq<Frame>
    decreases |fs|
  {
    if fs == [] then q else InsertAll(Insert(q, fs[0]), fs[1..])
  }

  lemma {:induction false} InsertAllSorts(q: seq<Frame>, fs: seq<Frame>, t: seq<Frame>, base: int)
    requires Ordered(q) && Ordered(t) && InWindow(t, base)
    requires multiset(q) + multiset(fs) == multiset(t)
    ensures InsertAll(q, fs) == t
    decreases |fs|
  {
    if fs == [] {
      OrderedIsUnique(q, t);
    } else {
      assert fs == [fs[0]] + fs[1..];
      DrawnAreDistinct(q, fs[0], t);
      forall e | e in q || e == fs[0] ensures base <= e.at < base + TWO31 {
        assert e in multiset(q) + multiset(fs) && e in multiset(t) && e in t;
      }
      InsertKeepsOrder(q, fs[0], base);
      InsertAllSorts(Insert(q, fs[0]), fs[1..], t, base);
    }
  }

  lemma {:induction false} InsertAllConcat(q: seq<Frame>, a: seq<Frame>, b: seq<Frame>)
    ensures InsertAll(q, a + b) == InsertAll(InsertAll(q, a), b)
    decreases |a|
  {
    if a == [] {
      assert a + b == b;
    } else {
      assert (a + b)[1..] == a[1..] + b;
      InsertAllConcat(Insert(q, a[0]), a[1..], b);
    }
  }

  lemma {:induction false} InsertAllLength(q: seq<Frame>, fs: seq<Frame>)
    ensures |InsertAll(q, fs)| == |q| + |fs|
    decreases |fs|
  {
    if fs != [] {
      InsertAllLength(Insert(q, fs[0]), fs[1..]);
    }
  }

  // ---------- packets ----------

  /** With room for every chunk nothing is drained or refused. */
  lemma {:induction false} QueuePcmInserts(q: seq<Frame>, capacity: nat, held: nat, at: int, channels: nat,
                                           pcm: seq<Sample>)
    requires |q| + |Chunks(at, channels, pcm)| + held <= capacity
    ensures QueuePcm(q, capacity, held, at, channels, pcm) == (InsertAll(q, Chunks(at, channels, pcm)), true)
    decreases |pcm|
  {
    if |pcm| > 0 {
      var n := if |pcm| > AAC_FRAMES_PER_PACKET then AAC_FRAMES_PER_PACKET else |pcm|;
      var f := Frame(at, channels, pcm[..n]);
      assert Chunks(at, channels, pcm)[1..] == Chunks(at + n, channels, pcm[n..]);
      QueuePcmInserts(Insert(q, f), capacity, held, at + n, channels, pcm[n..]);
    }
  }

  /** The receiver queues packets one after the other. */
  function QueueAll(q: seq<Frame>, capacity: nat, held: nat, ps: seq<Packet>): seq<Frame>
    decreases |ps|
  {
    if ps == [] then q
    else QueueAll(QueueDecoded(q, capacity, held, ps[0].at, ps[0].channels, ps[0].pcm).0, capacity, held, ps[1..])
  }

  function AllPieces(ps: seq<Packet>): seq<Frame>
    decreases |ps|
  {
    if ps == [] then [] else ps[0].Pieces() + AllPieces(ps[1..])
  }

  lemma {:induction false} QueueAllInserts(q: seq<Frame>, capacity: nat, held: nat, ps: seq<Packet>)
    requires |q| + |AllPieces(ps)| + held <= capacity
    ensures QueueAll(q, capacity, held, ps) == InsertAll(q, AllPieces(ps))
    decreases |ps|
  {
    if ps != [] {
      var p := ps[0];
      QueuePcmInserts(q, capacity, held, p.at, EffectiveChannels(p.channels), p.pcm);
      var q1 := InsertAll(q, p.Pieces());
      InsertAllLength(q, p.Pieces());
      QueueAllInserts(q1, capacity, held, ps[1..]);
      InsertAllConcat(q, p.Pieces(), AllPieces(ps[1..]));
    }
  }

  lemma {:induction false} AllPiecesConcat(a: seq<Packet>, b: seq<Packet>)
    ensures AllPieces(a + b) == AllPieces(a) + AllPieces(b)
    decreases |a|
  {
    if a == [] {
      assert a + b == b;
    } else {
      assert (a + b)[1..] == a[1..] + b;
      AllPiecesConcat(a[1..], b);
    }
  }

  lemma AllPiecesSplit(b: seq<Packet>, k: nat)
    requires k < |b|
    ensures AllPieces(b) == AllPieces(b[..k]) + (b[k].Pieces() + AllPieces(b[k+1..]))
  {
    assert b == b[..k] + b[k..];
    AllPiecesConcat(b[..k], b[k..]);
    assert b[k..][1..] == b[k+1..];
  }

  lemma SwapBag<T>(x: seq<T>, y: seq<T>, z: seq<T>)
    ensures multiset(x + (y + z)) == multiset(y) + multiset(x + z)
  {
  }

  lemma RemoveOne<T>(a: seq<T>, b: seq<T>, k: nat)
    requires k < |b| && multiset(a) == multiset(b) && |a| > 0 && a[0] == b[k]
    ensures multiset(a[1..]) == multiset(b[..k] + b[k+1..])
  {
    assert a == [a[0]] + a[1..];
    assert b == b[..k] + ([b[k]] + b[k+1..]);
    SwapBag(b[..k], [b[k]], b[k+1..]);
    assert multiset(a) == multiset{a[0]} + multiset(a[1..]);
    AddCancels(multiset{a[0]}, multiset(a[1..]), multiset(b[..k] + b[k+1..]));
  }

  /** The chunks of a set of packets, as a bag, do not depend on the packets' order. */
  lemma {:induction false} PiecesIgnoreOrder(a: seq<Packet>, b: seq<Packet>)
    requires multiset(a) == multiset(b)
    ensures multiset(AllPieces(a)) == multiset(AllPieces(b))
    decreases |a|
  {
    if a == [] {
      assert |multiset(b)| == 0;
    } else {
      assert a[0] in multiset(b);
      var k :| 0 <= k < |b| && b[k] == a[0];
      RemoveOne(a, b, k);
      PiecesIgnoreOrder(a[1..], b[..k] + b[k+1..]);
      AllPiecesSplit(b, k);
      AllPiecesConcat(b[..k], b[k+1..]);
      SwapBag(AllPieces(b[..k]), b[k].Pieces(), AllPieces(b[k+1..]));
    }
  }

  // ---------- the chunks of one packet and of a timeline ----------

  /** A chunk every 352 samples, each at its own position on the timeline. */
  lemma {:induction false} ChunksAreCut(at: int, channels: nat, pcm: seq<Sample>, i: nat)
    requires i < |Chunks(at, channels, pcm)|
    ensures 352 * i < |pcm|
    ensures var c := Chunks(at, channels, pcm)[i];
            && c.at == at + 352 * i && c.channels == channels
            && c.pcm == pcm[352 * i..if 352 * (i + 1) < |pcm| then 352 * (i + 1) else |pcm|]
    decreases |pcm|
  {
    if i > 0 {
      ChunksAreCut(at + 352, channels, pcm[352..], i - 1);
    }
  }

  /** The chunks of a packet; one that does not say how many channels it has is stereo. */
  lemma PiecesAreCut(p: Packet, i: nat)
    requires i < |p.Pieces()|
    ensures 352 * i < |p.pcm|
    ensures p.Pieces()[i] == Frame(p.at + 352 * i, if p.channels <= 0 then 2 else p.channels,
                                   p.pcm[352 * i..if 352 * (i + 1) < |p.pcm| then 352 * (i + 1) else |p.pcm|])
  {
    ChunksAreCut(p.at, EffectiveChannels(p.channels), p.pcm, i);
  }

  lemma ChunksStayInside(at: int, channels: nat, pcm: seq<Sample>)
    ensures Ordered(Chunks(at, channels, pcm))
    ensures forall c :: c in Chunks(at, channels, pcm) ==> at <= c.at < at + |pcm|
  {
    var cs := Chunks(at, channels, pcm);
    forall i | 0 <= i < |cs| ensures cs[i].at == at + 352 * i && 352 * i < |pcm| {
      ChunksAreCut(at, channels, pcm, i);
    }
  }

  ghost predicate Timeline(ps: seq<Packet>, base: int) {
    && (forall i, j :: 0 <= i < j < |ps| ==> ps[i].at + |ps[i].pcm| <= ps[j].at)
    && (forall i :: 0 <= i < |ps| ==> base <= ps[i].at && ps[i].at + |ps[i].pcm| <= base + TWO31)
  }

  lemma {:induction false} PiecesAreOrdered(ps: seq<Packet>, base: int)
    requires Timeline(ps, base)
    ensures Ordered(AllPieces(ps)) && InWindow(AllPieces(ps), base)
    ensures ps != [] ==> forall f :: f in AllPieces(ps) ==> ps[0].at <= f.at
    decreases |ps|
  {
    if ps != [] {
      PiecesAreOrdered(ps[1..], base);
      ChunksStayInside(ps[0].at, EffectiveChannels(ps[0].channels), ps[0].pcm);
      var a, b := ps[0].Pieces(), AllPieces(ps[1..]);
      forall f, g | f in a && g in b ensures f.at < g.at {
        assert |ps| > 1;
      }
      assert forall i :: 0 <= i < |a| ==> a[i] in a;
      assert forall i :: 0 <= i < |b| ==> b[i] in b;
    }
  }

  /** Queue non-overlapping packets of one half-range window in any order: the buffer then holds
      exactly their chunks in timeline order. */
  lemma ArrivalOrderDoesNotMatter(timeline: seq<Packet>, arrival: seq<Packet>, capacity: nat, held: nat, base: int)
    requires Timeline(timeline, base)
    requires multiset(arrival) == multiset(timeline)
    requires |AllPieces(timeline)| + held <= capacity
    ensures QueueAll([], capacity, held, arrival) == AllPieces(timeline)
  {
    PiecesIgnoreOrder(arrival, timeline);
    PiecesAreOrdered(timeline, base);
    assert |AllPieces(arrival)| == |multiset(AllPieces(arrival))| == |AllPieces(timeline)|;
    QueueAllInserts([], capacity, held, arrival);
    InsertAllSorts([], AllPieces(arrival), AllPieces(timeline), base);
  }

  // ---------- the PCM that comes out ----------

  function Pcm(fs: seq<Frame>): seq<Sample>
    decreases |fs|
  {
    if fs == [] then [] else fs[0].pcm + Pcm(fs[1..])
  }

  function PacketPcm(ps: seq<Packet>): seq<Sample>
    decreases |ps|
  {
    if ps == [] then [] else ps[0].pcm + PacketPcm(ps[1..])
  }

  lemma {:induction false} PcmConcat(a: seq<Frame>, b: seq<Frame>)
    ensures Pcm(a + b) == Pcm(a) + Pcm(b)
    decreases |a|
  {
    if a == [] {
      assert a + b == b;
    } else {
      assert (a + b)[1..] == a[1..] + b;
      PcmConcat(a[1..], b);
    }
  }

  lemma {:induction false} ChunksKeepPcm(at: int, channels: nat, pcm: seq<Sample>)
    ensures Pcm(Chunks(at, channels, pcm)) == pcm
    decreases |pcm|
  {
    if |pcm| > 0 {
      var n := if |pcm| > AAC_FRAMES_PER_PACKET then AAC_FRAMES_PER_PACKET else |pcm|;
      ChunksKeepPcm(at + n, channels, pcm[n..]);
      assert Chunks(at, channels, pcm)[1..] == Chunks(at + n, channels, pcm[n..]);
    }
  }

  /** The chunks of a timeline concatenate back to the original PCM. */
  lemma {:induction false} PiecesKeepPcm(ps: seq<Packet>)
    ensures Pcm(AllPieces(ps)) == PacketPcm(ps)
    decreases |ps|
  {
    if ps != [] {
      ChunksKeepPcm(ps[0].at, EffectiveChannels(ps[0].channels), ps[0].pcm);
      PcmConcat(ps[0].Pieces(), AllPieces(ps[1..]));
      PiecesKeepPcm(ps[1..]);
    }
  }
}
