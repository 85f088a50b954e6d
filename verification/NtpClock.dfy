/** The NTP timing client (RFC 5905, section 8): offset and delay of each exchange, the last eight of
    them in a ring, and the least dispersed one as the clock. */
module NtpClock {
  import opened MachineIntegers

  const TIMING_HISTORY_SIZE := 8
  const MIN_MEASUREMENTS := 3
  const MAX_ROUND_TRIP_NS := 1000000000

  // ---------- NTP stamps ----------

  /** Seconds and 2^-32 fractions. */
  datatype Stamp = Stamp(secs: Uint32, frac: Uint32)

  /** local_us_to_ntp */
  function LocalUsToNtp(us: nat): Stamp {
    Stamp(Wrap32(us / 1000000), Wrap32((us % 1000000) * 0x1_0000_0000 / 1000000))
  }

  /** ntp_to_ns */
  function NtpToNs(s: Stamp): nat {
    s.secs * 1000000000 + s.frac * 1000000000 / 0x1_0000_0000
  }

  lemma FractionLosesAtMostOne(r: nat)
    requires r < 1000000
    ensures var frac := r * 0x1_0000_0000 / 1000000;
            frac < 0x1_0000_0000 && r * 1000 - 1 <= frac * 1000000000 / 0x1_0000_0000 <= r * 1000
  {
    var frac := r * 0x1_0000_0000 / 1000000;
    var ns := frac * 1000000000 / 0x1_0000_0000;
    assert frac * 1000000 <= r * 0x1_0000_0000 < frac * 1000000 + 1000000;
    assert ns * 0x1_0000_0000 <= frac * 1000000000 < ns * 0x1_0000_0000 + 0x1_0000_0000;
  }

  /** Passing a local time through a stamp loses at most one nanosecond, until the seconds wrap. */
  lemma StampLosesAtMostOne(us: nat)
    requires us < 0x1_0000_0000 * 1000000
    ensures us * 1000 - 1 <= NtpToNs(LocalUsToNtp(us)) <= us * 1000
  {
    var secs, r := us / 1000000, us % 1000000;
    FractionLosesAtMostOne(r);
    assert us == secs * 1000000 + r && secs < 0x1_0000_0000;
    assert LocalUsToNtp(us) == Stamp(secs, r * 0x1_0000_0000 / 1000000);
  }

  // ---------- one exchange ----------

  /** The three stamps of a response: our own, echoed, and the remote's two. */
  datatype Response = Response(origin: Stamp, receive: Stamp, transmit: Stamp)

  function RoundTrip(r: Response, arrivalNs: int): int {
    arrivalNs - NtpToNs(r.origin)
  }

  function NetworkDelay(r: Response, arrivalNs: int): int {
    RoundTrip(r, arrivalNs) - (NtpToNs(r.transmit) - NtpToNs(r.receive))
  }

  /** The offset of one exchange: remote time minus local time. */
  function OffsetOf(r: Response, arrivalNs: int): int {
    NtpToNs(r.transmit) + CDiv(NetworkDelay(r, arrivalNs), 2) - arrivalNs
  }

  /** Half the delay: how far the offset can be out. */
  function DispersionOf(r: Response, arrivalNs: int): int {
    CDiv(NetworkDelay(r, arrivalNs), 2)
  }

  predicate Accepted(r: Response, arrivalNs: int) {
    0 <= RoundTrip(r, arrivalNs) <= MAX_ROUND_TRIP_NS
  }

  datatype Measurement = Measurement(offset: int, dispersion: int)

  function Measure(r: Response, arrivalNs: int): Measurement {
    Measurement(OffsetOf(r, arrivalNs), DispersionOf(r, arrivalNs))
  }

  /** Measurement number k is among the last eight. */
  predicate Recent(k: int, count: nat) {
    0 <= k < count && count - TIMING_HISTORY_SIZE <= k
  }

  /** The offset belongs to a recent measurement with the least dispersion of them all. */
  ghost predicate IsBest(offset: int, history: seq<Measurement>) {
    exists k :: Recent(k, |history|) && IsLeast(k, history) && history[k].offset == offset
  }

  ghost predicate IsLeast(k: nat, history: seq<Measurement>)
    requires k < |history|
  {
    forall j :: Recent(j, |history|) ==> history[k].dispersion <= history[j].dispersion
  }

  /** The recent measurement a ring slot holds. */
  function Held(slot: nat, count: nat): (k: int)
    requires slot < 8 && slot < count
    ensures Recent(k, count) && k % 8 == slot
  {
    if count <= 8 then slot else count - 8 + (slot - count) % 8
  }

  lemma SlotsDiffer(k: int, count: nat)
    requires Recent(k, count)
    ensures count > k >= count - 7 ==> k % 8 != count % 8
  {
  }

  class Clock {
    var locked: bool
    var offsetNs: int
    const measurements: array<int>
    const dispersions: array<int>
    var measurementCount: nat
    var measurementIndex: nat
    ghost var history: seq<Measurement>  // every accepted measurement since the client started

    /** The ring holds the recent measurements: number k of the history sits at k modulo 8. */
    ghost predicate Ring()
      reads this, measurements, dispersions
    {
      && measurements.Length == dispersions.Length == TIMING_HISTORY_SIZE
      && measurements != dispersions
      && measurementIndex == |history| % TIMING_HISTORY_SIZE
      && measurementCount == (if |history| < TIMING_HISTORY_SIZE then |history| else TIMING_HISTORY_SIZE)
      && (forall k :: Recent(k, |history|) ==>
            && measurements[k % TIMING_HISTORY_SIZE] == history[k].offset
            && dispersions[k % TIMING_HISTORY_SIZE] == history[k].dispersion)
    }

    ghost predicate Valid()
      reads this, measurements, dispersions
    {
      && Ring()
      && (history != [] ==> IsBest(offsetNs, history))
      && (locked <==> |history| >= MIN_MEASUREMENTS)
    }

    /** The state ntp_clock_start_client leaves. */
    constructor ()
      ensures Valid() && history == [] && fresh(measurements) && fresh(dispersions)
    {
      locked, offsetNs, measurementCount, measurementIndex := false, 0, 0, 0;
      measurements := new int[TIMING_HISTORY_SIZE](_ => 0);
      dispersions := new int[TIMING_HISTORY_SIZE](_ => 0);
      history := [];
    }

    /** process_timing_response, on a full-size packet. */
    method ProcessResponse(r: Response, arrivalNs: int)
      requires Valid()
      modifies this, measurements, dispersions
      ensures Valid()
      ensures history == if Accepted(r, arrivalNs) then old(history) + [Measure(r, arrivalNs)] else old(history)
      ensures !Accepted(r, arrivalNs) ==> offsetNs == old(offsetNs) && locked == old(locked)
      ensures Accepted(r, arrivalNs) && IsLeast(|history| - 1, history) ==> offsetNs == history[|history| - 1].offset
      ensures locked <==> |history| >= 3
    {
      hide NtpToNs;
      var departureNs := NtpToNs(r.origin);
      var remoteReceiveNs := NtpToNs(r.receive);
      var remoteTransmitNs := NtpToNs(r.transmit);
      var roundTripNs := arrivalNs - departureNs;
      var remoteProcessingNs := remoteTransmitNs - remoteReceiveNs;
      var networkDelayNs := roundTripNs - remoteProcessingNs;
      var newOffset := remoteTransmitNs + CDiv(networkDelayNs, 2) - arrivalNs;
      var newDispersion := CDiv(networkDelayNs, 2);
      if roundTripNs < 0 || roundTripNs > MAX_ROUND_TRIP_NS {
        return;
      }
      Store(newOffset, newDispersion);
      PickBest(newOffset, newDispersion);
      if !locked && measurementCount >= MIN_MEASUREMENTS {
        locked := true;
      }
    }

    /** Put one measurement into the ring. */
    method Store(offset: int, dispersion: int)
      requires Ring()
      modifies this`measurementCount, this`measurementIndex, this`history, measurements, dispersions
      ensures Ring() && history == old(history) + [Measurement(offset, dispersion)]
    {
      var idx := measurementIndex;
      forall k | Recent(k, |history| + 1) && k < |history| ensures k % 8 != idx && Recent(k, |history|) {
        SlotsDiffer(k, |history|);
      }
      measurements[idx] := offset;
      dispersions[idx] := dispersion;
      measurementIndex := (idx + 1) % TIMING_HISTORY_SIZE;
      if measurementCount < TIMING_HISTORY_SIZE {
        measurementCount := measurementCount + 1;
      }
      history := history + [Measurement(offset, dispersion)];
    }

    /** Scan the ring for the least dispersion; the newest measurement wins ties. */
    method PickBest(offset: int, dispersion: int)
      requires Ring() && history != [] && history[|history| - 1] == Measurement(offset, dispersion)
      modifies this`offsetNs
      ensures IsBest(offsetNs, history)
      ensures IsLeast(|history| - 1, history) ==> offsetNs == offset
    {
      var bestOffset, bestDispersion := offset, dispersion;
      ghost var best: int := |history| - 1;
      for i := 0 to measurementCount
        invariant Recent(best, |history|) && history[best] == Measurement(bestOffset, bestDispersion)
        invariant forall s :: 0 <= s < i ==> bestDispersion <= dispersions[s]
        invariant bestDispersion < dispersion || (bestDispersion == dispersion && bestOffset == offset)
      {
        if dispersions[i] < bestDispersion {
          best := Held(i, |history|);
          bestDispersion := dispersions[i];
          bestOffset := measurements[i];
        }
      }
      forall j | Recent(j, |history|) ensures bestDispersion <= history[j].dispersion {
        assert dispersions[j % 8] == history[j].dispersion;
      }
      assert IsLeast(best, history);
      offsetNs := bestOffset;
    }
  }

  // ---------- accuracy ----------

  /** What an exchange with an honest remote looks like: sent at local time `sentUs`, `forward` and
      `back` nanoseconds on the way, `processing` at the remote, and the stamps the remote wrote. */
  datatype Exchange = Exchange(sentUs: nat, forward: nat, processing: int, back: nat, receive: Stamp, transmit: Stamp) {
    function Arrival(): int { sentUs * 1000 + forward + processing + back }

    function Answer(): Response { Response(LocalUsToNtp(sentUs), receive, transmit) }

    function Measured(): Measurement { Measure(Answer(), Arrival()) }

    /** What the three stamps lose against the true times, for a remote clock `theta` ahead. */
    function OriginLoss(): int { sentUs * 1000 - NtpToNs(Answer().origin) }

    function ReceiveLoss(theta: int): int { sentUs * 1000 + forward + theta - NtpToNs(receive) }

    function TransmitLoss(theta: int): int { sentUs * 1000 + forward + processing + theta - NtpToNs(transmit) }

    /** Stamps are truncated: each of the remote's reads back at most a nanosecond low. */
    predicate Honest(theta: int) {
      sentUs < 0x1_0000_0000 * 1000000 && 0 <= ReceiveLoss(theta) <= 1 && 0 <= TransmitLoss(theta) <= 1
    }

    /** The remote's stamps read back exactly. */
    predicate Exact(theta: int) {
      Honest(theta) && ReceiveLoss(theta) == TransmitLoss(theta) == 0
    }
  }

  /** What a remote writes that cuts its time to 2^-32 seconds. */
  function NsToNtp(ns: nat): Stamp {
    Stamp(Wrap32(ns / 1000000000), Wrap32(ns % 1000000000 * 0x1_0000_0000 / 1000000000))
  }

  /** Such a stamp reads back at most a nanosecond low, as an honest remote's must. */
  lemma RemoteStampLosesAtMostOne(ns: nat)
    requires ns < 0x1_0000_0000 * 1000000000
    ensures ns - 1 <= NtpToNs(NsToNtp(ns)) <= ns
  {
    var secs, r := ns / 1000000000, ns % 1000000000;
    RemoteFraction(r);
    assert ns == secs * 1000000000 + r && secs < 0x1_0000_0000;
    assert NsToNtp(ns) == Stamp(secs, r * 0x1_0000_0000 / 1000000000);
  }

  lemma RemoteFraction(r: nat)
    requires r < 1000000000
    ensures var frac := r * 0x1_0000_0000 / 1000000000;
            frac < 0x1_0000_0000 && r - 1 <= frac * 1000000000 / 0x1_0000_0000 <= r
  {
    var frac := r * 0x1_0000_0000 / 1000000000;
    var ns := frac * 1000000000 / 0x1_0000_0000;
    assert frac * 1000000000 <= r * 0x1_0000_0000 < frac * 1000000000 + 1000000000;
    assert ns * 0x1_0000_0000 <= frac * 1000000000 < ns * 0x1_0000_0000 + 0x1_0000_0000;
  }

  /** The offset is out by at most the dispersion, and `slack` nanoseconds more on the low side. */
  ghost predicate Accurate(m: Measurement, theta: int, slack: nat) {
    theta - m.dispersion - slack <= m.offset <= theta + m.dispersion
  }

  /** The slack an exchange needs, exactly: two nanoseconds in one case, else one at most. In that case
      the way out took no time, our own stamp lost nothing and the remote's receive stamp one, and the
      way back with the transmit stamp's loss makes an even number that is not zero. */
  predicate NeedsTwo(e: Exchange, theta: int) {
    && e.forward == 0 && e.OriginLoss() == 0 && e.ReceiveLoss(theta) == 1
    && e.back + e.TransmitLoss(theta) > 0 && (e.back + e.TransmitLoss(theta)) % 2 == 0
  }

  /** One exchange errs by at most its dispersion and two nanoseconds. */
  lemma ExchangeIsAccurate(e: Exchange, theta: int)
    requires e.Honest(theta)
    ensures Accurate(e.Measured(), theta, 2) && e.Measured().dispersion >= 0
    ensures Accurate(e.Measured(), theta, 1) <==> !NeedsTwo(e, theta)
  {
    hide NtpToNs, LocalUsToNtp;
    StampLosesAtMostOne(e.sentUs);
  }

  /** An exchange with an honest remote is taken exactly when it took no more than a second from sending to
      arrival; at a second to the nanosecond, only if our own stamp lost nothing. One that seems to end
      before it began is not taken. */
  lemma {:induction false} TakenWithinASecond(e: Exchange, theta: int)
    requires e.Honest(theta)
    ensures var tookNs := e.forward + e.processing + e.back;
      && (0 <= tookNs < 1000000000 ==> Accepted(e.Answer(), e.Arrival()))
      && (tookNs > 1000000000 || tookNs < -1 ==> !Accepted(e.Answer(), e.Arrival()))
      && (tookNs == 1000000000 ==> (Accepted(e.Answer(), e.Arrival()) <==> e.OriginLoss() == 0))
  {
    hide NtpToNs, LocalUsToNtp;
    StampLosesAtMostOne(e.sentUs);
  }

  /** The accepted measurements of a run of exchanges. */
  function History(es: seq<Exchange>): seq<Measurement>
    decreases |es|
  {
    if es == [] then []
    else
      var e := es[|es| - 1];
      History(es[..|es| - 1]) + if Accepted(e.Answer(), e.Arrival()) then [e.Measured()] else []
  }

  lemma {:induction false} HistoryIsAccurate(es: seq<Exchange>, theta: int, slack: nat)
    requires forall e :: e in es ==> Accurate(e.Measured(), theta, slack)
    ensures forall k :: 0 <= k < |History(es)| ==> Accurate(History(es)[k], theta, slack)
    decreases |es|
  {
    hide Accepted, Accurate;
    if es != [] {
      HistoryIsAccurate(es[..|es| - 1], theta, slack);
    }
  }

  /** The offset is out by no more than any recent dispersion, and the slack. */
  ghost predicate WithinRecent(offsetNs: int, history: seq<Measurement>, theta: int, slack: nat) {
    forall j :: Recent(j, |history|) ==>
      theta - history[j].dispersion - slack <= offsetNs <= theta + history[j].dispersion
  }

  lemma BestIsWithin(offsetNs: int, history: seq<Measurement>, theta: int, slack: nat)
    requires IsBest(offsetNs, history) && forall k :: 0 <= k < |history| ==> Accurate(history[k], theta, slack)
    ensures WithinRecent(offsetNs, history, theta, slack)
  {
    var k :| Recent(k, |history|) && IsLeast(k, history) && history[k].offset == offsetNs;
    assert Accurate(history[k], theta, slack);
  }

  /** After any run of exchanges with an honest remote the clock's offset is within the least dispersion
      of the last eight accepted ones of the true offset, and two nanoseconds more on the low side. One
      is enough when no exchange is of the kind that needs two, as when the remote's stamps are exact. */
  lemma {:induction false} ClockIsAccurate(es: seq<Exchange>, theta: int, offsetNs: int)
    requires forall e :: e in es ==> e.Honest(theta)
    ensures IsBest(offsetNs, History(es)) ==> WithinRecent(offsetNs, History(es), theta, 2)
    ensures IsBest(offsetNs, History(es)) && (forall e :: e in es ==> !NeedsTwo(e, theta)) ==>
      WithinRecent(offsetNs, History(es), theta, 1)
    ensures (forall e :: e in es ==> e.Exact(theta)) ==> forall e :: e in es ==> !NeedsTwo(e, theta)
  {
    hide IsBest, WithinRecent, Accurate, NeedsTwo, History;
    forall e | e in es
      ensures Accurate(e.Measured(), theta, 2) && (Accurate(e.Measured(), theta, 1) <==> !NeedsTwo(e, theta))
    {
      ExchangeIsAccurate(e, theta);
    }
    HistoryIsAccurate(es, theta, 2);
    if IsBest(offsetNs, History(es)) {
      BestIsWithin(offsetNs, History(es), theta, 2);
      if forall e :: e in es ==> !NeedsTwo(e, theta) {
        HistoryIsAccurate(es, theta, 1);
        BestIsWithin(offsetNs, History(es), theta, 1);
      }
    }
    forall e | e in es && e.Exact(theta) ensures !NeedsTwo(e, theta) {
      ExactNeedsOne(e, theta);
    }
  }

  lemma ExactNeedsOne(e: Exchange, theta: int)
    requires e.Exact(theta)
    ensures !NeedsTwo(e, theta)
  {
  }

  /** The nanosecond is needed even then: a delay of one nanosecond on the way back alone. */
  lemma ExtraNanosecondIsNeeded(e: Exchange, theta: int)
    requires e.sentUs == 0 && e.forward == 0 && e.back == 1 && e.Exact(theta)
    ensures e.Measured() == Measurement(theta - 1, 0)
  {
    hide NtpToNs, LocalUsToNtp;
    StampLosesAtMostOne(e.sentUs);
  }

  lemma TwoByLosses(e: Exchange, theta: int)
    requires e.forward == 0 && e.back == 2 && e.OriginLoss() == 0
    requires e.ReceiveLoss(theta) == 1 && e.TransmitLoss(theta) == 0
    ensures NeedsTwo(e, theta) && e.Measured() == Measurement(theta - 2, 0)
  {
    hide NtpToNs, LocalUsToNtp;
  }

  /** And the second one: two on the way back, with a receive stamp that reads back one low. */
  lemma TwoNanosecondsAreNeeded(e: Exchange, theta: int)
    requires e.sentUs == 0 && e.forward == 0 && e.processing == 0 && e.back == 2
    requires NtpToNs(e.receive) == theta - 1 && NtpToNs(e.transmit) == theta
    ensures e.Honest(theta) && NeedsTwo(e, theta) && e.Measured() == Measurement(theta - 2, 0)
  {
    hide NtpToNs, LocalUsToNtp, NeedsTwo, Exchange.Measured;
    StampLosesAtMostOne(e.sentUs);
    TwoByLosses(e, theta);
  }

  /** A remote that is 10 ns ahead and cuts its stamps to 39 and 43 fractions is such a case. */
  lemma SuchStampsExist(receive: Stamp, transmit: Stamp)
    requires receive.secs == 0 && receive.frac == 39 && transmit.secs == 0 && transmit.frac == 43
    ensures NtpToNs(receive) == 9 && NtpToNs(transmit) == 10
  {
  }

  /** So the second nanosecond is needed in fact: an honest exchange of dispersion 0 is two out. */
  lemma SecondNanosecondIsNeeded()
    ensures exists e: Exchange, theta ::
      e.Honest(theta) && NeedsTwo(e, theta) && e.Measured() == Measurement(theta - 2, 0)
  {
    hide *;
    var receive, transmit := Stamp(0, 39), Stamp(0, 43);
    var e := Exchange(0, 0, 0, 2, receive, transmit);
    SuchStampsExist(receive, transmit);
    TwoNanosecondsAreNeeded(e, 10);
    assert e.Honest(10) && NeedsTwo(e, 10) && e.Measured() == Measurement(10 - 2, 0);
  }
}
