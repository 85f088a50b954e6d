/** The PTP follower (IEEE 1588-2008, sections 13.6 and 13.7): offsets from Sync and Follow_Up, a
    median over the last sixteen accepted ones, and a lock with hysteresis. */
module PtpClock {
  import opened MachineIntegers
  import opened Median

  const LOCK_THRESHOLD_NS := 40000000
  const MIN_SAMPLES_FOR_LOCK := 8
  const LOCK_STABLE_TIME_MS := 1000
  const LOCK_TIMEOUT_MS := 5000
  const SAMPLE_BUFFER_SIZE := 16
  const OUTLIER_THRESHOLD_NS := 50000000

  /** An accepted sample, and the time it came: unbounded milliseconds, of which the clock sees the
      low 32 bits. */
  datatype Update = Update(atMs: nat, offset: int)

  /** The offsets of the last sixteen updates, or of all of them. */
  function Window(log: seq<Update>): (w: seq<int>)
    ensures |w| == if |log| < 16 then |log| else 16
  {
    var first := if |log| < 16 then 0 else |log| - 16;
    seq(|log| - first, i requires 0 <= i < |log| - first => log[first + i].offset)
  }

  /** All samples of the window are closer to the median than the threshold. */
  ghost predicate Within(w: seq<int>, median: int, limit: int) {
    forall i :: 0 <= i < |w| ==> Abs(w[i] - median) < limit
  }

  /** No sample of the window is farther than `most` from the median. */
  ghost predicate DeviatesBy(log: seq<Update>, median: int, most: nat) {
    forall i :: 0 <= i < |Window(log)| ==> -(most as int) <= Window(log)[i] - median <= most
  }

  lemma DeviationMeans(log: seq<Update>, median: int)
    ensures Within(Window(log), median, LOCK_THRESHOLD_NS) <==> DeviatesBy(log, median, 39999999)
    ensures Within(Window(log), median, 4 * LOCK_THRESHOLD_NS + 1) <==> DeviatesBy(log, median, 160000000)
  {
  }

  /** The updates so far would allow a lock: enough samples, all near their median. */
  ghost predicate Steady(log: seq<Update>) {
    |log| >= MIN_SAMPLES_FOR_LOCK && exists m :: IsMedian(m, Window(log)) && Within(Window(log), m, LOCK_THRESHOLD_NS)
  }

  /** Every update from number `since` on left the clock steady. */
  ghost predicate SteadySince(log: seq<Update>, since: nat) {
    forall n :: since < n <= |log| ==> Steady(log[..n])
  }

  /** The updates came in time order. */
  ghost predicate InTime(log: seq<Update>) {
    forall i, j :: 0 <= i < j < |log| ==> log[i].atMs <= log[j].atMs
  }

  /** Time has not gone back since the last accepted update. */
  ghost predicate NotBefore(log: seq<Update>, atMs: nat) {
    InTime(log) && (log != [] ==> log[|log| - 1].atMs <= atMs)
  }

  lemma TimeAppends(log: seq<Update>, u: Update)
    requires NotBefore(log, u.atMs)
    ensures InTime(log + [u])
  {
  }

  lemma TimeOrder(log: seq<Update>, updates: seq<Update>, i: nat)
    requires InTime(log + updates) && i < |updates|
    ensures NotBefore(log, updates[i].atMs)
  {
    var all := log + updates;
    assert all[|log| + i] == updates[i];
    assert forall k :: 0 <= k < |log| ==> all[k] == log[k];
  }

  /** A running candidate period began with update `candidate` and has been steady since. */
  ghost predicate CandidateHolds(log: seq<Update>, startMs: Uint32, candidate: nat) {
    startMs != 0 ==>
      candidate < |log| && startMs == Wrap32(log[candidate].atMs) && SteadySince(log, candidate)
  }

  /** update_offset refuses a sample more than 50 ms from the current estimate. */
  predicate Rejected(log: seq<Update>, filtered: int, offset: int) {
    log != [] && Abs(offset - filtered) > OUTLIER_THRESHOLD_NS
  }

  /** How long the candidate period has run by the 32-bit clock; it starts now if none was running. */
  function ElapsedMs(startMs: Uint32, nowMs: Uint32): Uint32 {
    Wrap32(nowMs - if startMs == 0 then nowMs else startMs)
  }

  /** The candidate start after an accepted sample: it survives while there are too few samples or the
      lock stands, is dropped by an unsteady window or a lock just taken, and otherwise runs on. */
  ghost function NextCandidate(log: seq<Update>, startMs: Uint32, wasLocked: bool, nowMs: Uint32): Uint32 {
    if |log| < MIN_SAMPLES_FOR_LOCK || (wasLocked && Steady(log)) then startMs
    else if !Steady(log) || ElapsedMs(startMs, nowMs) >= LOCK_STABLE_TIME_MS then 0
    else if startMs == 0 then nowMs
    else startMs
  }

  /** Whether the clock is locked after an accepted sample. */
  ghost predicate NextLocked(log: seq<Update>, filtered: int, startMs: Uint32, wasLocked: bool, nowMs: Uint32) {
    if wasLocked then |log| < MIN_SAMPLES_FOR_LOCK || Within(Window(log), filtered, 4 * LOCK_THRESHOLD_NS + 1)
    else Steady(log) && ElapsedMs(startMs, nowMs) >= LOCK_STABLE_TIME_MS
  }

  lemma SlotsDiffer(k: int, count: nat)
    requires count - 15 <= k < count
    ensures k % 16 != count % 16
  {
  }

  lemma SlotOf(n: nat, j: nat)
    requires n > 16 && j < 16
    ensures (n - 16 + j) % 16 == if j < 16 - n % 16 then n % 16 + j else n % 16 + j - 16
  {
  }

  lemma SteadyMeans(log: seq<Update>, median: int)
    requires log != [] && IsMedian(median, Window(log))
    ensures Steady(log) <==> |log| >= MIN_SAMPLES_FOR_LOCK && Within(Window(log), median, LOCK_THRESHOLD_NS)
  {
    forall m | IsMedian(m, Window(log)) ensures m == median {
      RankIsUnique(m, median, Window(log), |Window(log)| / 2);
    }
  }

  lemma WithinWeakens(w: seq<int>, m: int)
    requires Within(w, m, LOCK_THRESHOLD_NS)
    ensures Within(w, m, 4 * LOCK_THRESHOLD_NS + 1)
  {
  }

  lemma CandidateNeedsEight(log: seq<Update>, startMs: Uint32, candidate: nat)
    requires CandidateHolds(log, startMs, candidate) && startMs != 0
    ensures |log| >= MIN_SAMPLES_FOR_LOCK
  {
    assert Steady(log[..|log|]);
  }

  /** One more steady update extends a candidate period, and could begin one. */
  lemma CandidateGrows(log: seq<Update>, startMs: Uint32, candidate: nat)
    requires log != [] && CandidateHolds(log[..|log| - 1], startMs, candidate)
    ensures Steady(log) ==> CandidateHolds(log, startMs, candidate) && SteadySince(log, |log| - 1)
  {
    hide Steady;
    assert log[..|log|] == log;
    forall n | candidate < n <= |log| - 1 ensures log[..|log| - 1][..n] == log[..n] {
    }
  }

  lemma WrapDifference(a: nat, b: nat)
    requires a >= b
    ensures Wrap32(Wrap32(a) - Wrap32(b)) == Wrap32(a - b) <= a - b
  {
    var qa, qb := a / 0x1_0000_0000, b / 0x1_0000_0000;
    assert Wrap32(a) - Wrap32(b) == (a - b) + (qb - qa) * 0x1_0000_0000;
    WrapIgnoresTurns(a - b, qb - qa);
  }

  /** A lock means a steady stretch of at least a second of real time. */
  lemma LockWasEarned(log: seq<Update>, startMs: Uint32, candidate: nat)
    requires log != [] && InTime(log) && Steady(log)
    requires CandidateHolds(log[..|log| - 1], startMs, candidate)
    requires ElapsedMs(startMs, Wrap32(log[|log| - 1].atMs)) >= LOCK_STABLE_TIME_MS
    ensures exists c ::
      0 <= c < |log| && SteadySince(log, c) && log[|log| - 1].atMs - log[c].atMs >= LOCK_STABLE_TIME_MS
  {
    hide Steady;
    CandidateGrows(log, startMs, candidate);
    assert startMs != 0;
    WrapDifference(log[|log| - 1].atMs, log[candidate].atMs);
    assert SteadySince(log, candidate);
  }

  lemma WithinRotates(s: seq<int>, r: nat, m: int, limit: int)
    requires |s| == 16 && r < 16
    ensures Within(s[r..] + s[..r], m, limit) <==> Within(s[..16], m, limit)
  {
    hide Abs;
    var w := s[r..] + s[..r];
    assert forall i :: 0 <= i < 16 ==> w[i] == if i < 16 - r then s[r + i] else s[r + i - 16];
    forall i | 0 <= i < 16 ensures s[i] == if i < r then w[i + 16 - r] else w[i - r] {
    }
  }

  class Clock {
    var locked: bool
    var lockStartMs: Uint32
    var lockCandidateStartMs: Uint32
    var lastSyncMs: Uint32
    var filteredOffsetNs: int
    const samples: array<int>
    var sampleIndex: nat
    var sampleFill: nat
    var lastSyncSeq: Uint16
    var lastSyncLocalNs: int
    var awaitingFollowup: bool
    ghost var syncAtMs: nat        // when update_offset last ran, whether or not it took the sample
    ghost var log: seq<Update>     // accepted since initialisation or the last clear
    ghost var candidate: nat       // the update the lock candidate period began with

    /** The ring holds the window: update k sits at k modulo 16. */
    ghost predicate Ring()
      reads this`log, this`sampleIndex, this`sampleFill, samples
    {
      && samples.Length == SAMPLE_BUFFER_SIZE
      && sampleIndex == |log| % SAMPLE_BUFFER_SIZE
      && sampleFill == (if |log| < SAMPLE_BUFFER_SIZE then |log| else SAMPLE_BUFFER_SIZE)
      && forall k :: 0 <= k < |log| && |log| - SAMPLE_BUFFER_SIZE <= k ==>
           samples[k % SAMPLE_BUFFER_SIZE] == log[k].offset
    }

    /** The filtered offset is the median of the window; a running candidate period has been steady
        from its first update on. */
    ghost predicate Valid()
      reads this`log, this`sampleIndex, this`sampleFill, this`filteredOffsetNs
      reads this`lockCandidateStartMs, this`candidate, this`lastSyncMs, this`syncAtMs, samples
    {
      && Ring()
      && lastSyncMs == Wrap32(syncAtMs)
      && (if log == [] then filteredOffsetNs == 0 else IsMedian(filteredOffsetNs, Window(log)))
      && CandidateHolds(log, lockCandidateStartMs, candidate)
    }

    constructor ()
      ensures Valid() && log == [] && !locked && fresh(samples)
      ensures lockCandidateStartMs == 0 && syncAtMs == 0 && !awaitingFollowup
    {
      locked, lockStartMs, lockCandidateStartMs, lastSyncMs, filteredOffsetNs := false, 0, 0, 0, 0;
      samples := new int[SAMPLE_BUFFER_SIZE](_ => 0);
      sampleIndex, sampleFill, lastSyncSeq, lastSyncLocalNs, awaitingFollowup := 0, 0, 0, 0, false;
      log, candidate, syncAtMs := [], 0, 0;
    }

    /** ptp_clock_clear */
    method Clear()
      requires Valid()
      modifies this
      ensures Valid() && log == [] && !locked && !awaitingFollowup && lockCandidateStartMs == 0 && syncAtMs == 0
    {
      hide IsMedian, Window, SteadySince;
      ClearSamples();
      locked, lockStartMs, lockCandidateStartMs, candidate := false, 0, 0, 0;
      lastSyncSeq, lastSyncLocalNs, awaitingFollowup := 0, 0, false;
    }

    method ClearSamples()
      requires samples.Length == SAMPLE_BUFFER_SIZE
      modifies this`lastSyncMs, this`filteredOffsetNs, this`sampleIndex, this`sampleFill, this`log, this`syncAtMs
      ensures Ring() && log == [] && filteredOffsetNs == 0 && lastSyncMs == 0 && syncAtMs == 0
    {
      lastSyncMs, filteredOffsetNs, sampleIndex, sampleFill := 0, 0, 0, 0;
      log, syncAtMs := [], 0;
    }

    /** compute_median */
    method ComputeMedian() returns (m: int)
      requires Ring()
      ensures if log == [] then m == 0 else IsMedian(m, Window(log))
    {
      if sampleFill == 0 {
        return 0;
      }
      var sorted := Sort(samples[..sampleFill]);
      m := sorted[sampleFill / 2];
      SortFindsRank(samples[..sampleFill], sampleFill / 2);
      RingCounts(m);
      RingCounts(m - 1);
    }

    /** A full ring is the window, rotated. */
    lemma RingRotates()
      requires Ring() && |log| > 16
      ensures Window(log) == samples[|log| % 16..] + samples[..|log| % 16]
    {
      var r := |log| % 16;
      var w, rotated := Window(log), samples[r..] + samples[..r];
      forall j | 0 <= j < 16 ensures w[j] == rotated[j] {
        assert w[j] == log[|log| - 16 + j].offset;
        SlotOf(|log|, j);
      }
    }

    /** The ring and the window hold the same samples. */
    lemma RingCounts(x: int)
      requires Ring()
      ensures CountAtMost(samples[..sampleFill], x) == CountAtMost(Window(log), x)
    {
      hide CountAtMost;
      if |log| <= 16 {
        assert samples[..sampleFill] == Window(log);
      } else {
        RingRotates();
        var r := |log| % 16;
        var a, b := samples[..r], samples[r..];
        assert samples[..16] == a + b;
        CountAppends(a, b, x);
        CountAppends(b, a, x);
      }
    }

    lemma RingWithin(m: int, limit: int)
      requires Ring()
      ensures Within(samples[..sampleFill], m, limit) <==> Within(Window(log), m, limit)
    {
      if |log| <= 16 {
        assert samples[..sampleFill] == Window(log);
      } else {
        RingRotates();
        hide Window;
        WithinRotates(samples[..], |log| % 16, m, limit);
      }
    }

    /** The deviation loop. */
    method MaxDeviation() returns (maxDev: nat)
      requires Ring()
      ensures forall limit :: limit > 0 ==> (maxDev < limit <==> Within(samples[..sampleFill], filteredOffsetNs, limit))
    {
      maxDev := 0;
      for i := 0 to sampleFill
        invariant forall limit :: limit > 0 ==> (maxDev < limit <==> Within(samples[..i], filteredOffsetNs, limit))
      {
        var dev := samples[i] - filteredOffsetNs;
        if dev < 0 {
          dev := -dev;
        }
        assert samples[..i + 1] == samples[..i] + [samples[i]];
        WithinAppends(samples[..i], samples[i], filteredOffsetNs);
        if dev > maxDev {
          maxDev := dev;
        }
      }
    }

    lemma WithinAppends(w: seq<int>, x: int, m: int)
      ensures forall limit :: Within(w + [x], m, limit) <==> Within(w, m, limit) && Abs(x - m) < limit
    {
      forall limit ensures Within(w + [x], m, limit) <==> Within(w, m, limit) && Abs(x - m) < limit {
        assert (w + [x])[|w|] == x;
        assert forall i :: 0 <= i < |w| ==> (w + [x])[i] == w[i];
      }
    }

    lemma FillMeans()
      requires Ring()
      ensures sampleFill > 0 <==> log != []
    {
    }

    /** Into the ring, over the oldest sample once sixteen are there. */
    method StoreSample(atMs: nat, offset: int)
      requires Ring()
      modifies this`sampleIndex, this`sampleFill, this`log, samples
      ensures Ring() && log == old(log) + [Update(atMs, offset)]
    {
      ghost var n := |log|;
      samples[sampleIndex] := offset;
      sampleIndex := (sampleIndex + 1) % SAMPLE_BUFFER_SIZE;
      if sampleFill < SAMPLE_BUFFER_SIZE {
        sampleFill := sampleFill + 1;
      }
      log := log + [Update(atMs, offset)];
      forall k | 0 <= k < n && n + 1 - 16 <= k ensures samples[k % 16] == log[k].offset {
        SlotsDiffer(k, n);
      }
    }

    /** Into the ring, and the median again. */
    method AddSample(atMs: nat, offset: int)
      requires Ring()
      modifies this`sampleIndex, this`sampleFill, this`filteredOffsetNs, this`log, samples
      ensures Ring() && log == old(log) + [Update(atMs, offset)] && IsMedian(filteredOffsetNs, Window(log))
    {
      hide Ring, IsMedian, Window;
      StoreSample(atMs, offset);
      filteredOffsetNs := ComputeMedian();
    }

    /** The lock decision after an accepted sample. */
    method CheckLock(nowMs: Uint32)
      requires Ring() && log != [] && IsMedian(filteredOffsetNs, Window(log)) && nowMs == Wrap32(log[|log| - 1].atMs)
      requires CandidateHolds(log[..|log| - 1], lockCandidateStartMs, candidate)
      modifies this`locked, this`lockStartMs, this`lockCandidateStartMs, this`candidate
      ensures CandidateHolds(log, lockCandidateStartMs, candidate)
      ensures locked <==> NextLocked(log, filteredOffsetNs, old(lockCandidateStartMs), old(locked), nowMs)
      ensures lockCandidateStartMs == NextCandidate(log, old(lockCandidateStartMs), old(locked), nowMs)
    {
      hide IsMedian, Window, SteadySince, Abs;
      if lockCandidateStartMs != 0 {
        CandidateNeedsEight(log[..|log| - 1], lockCandidateStartMs, candidate);
      }
      if sampleFill >= MIN_SAMPLES_FOR_LOCK {
        var maxDev := MaxDeviation();
        RingWithin(filteredOffsetNs, LOCK_THRESHOLD_NS);
        RingWithin(filteredOffsetNs, 4 * LOCK_THRESHOLD_NS + 1);
        SteadyMeans(log, filteredOffsetNs);
        CandidateGrows(log, lockCandidateStartMs, candidate);
        if maxDev < LOCK_THRESHOLD_NS {
          WithinWeakens(Window(log), filteredOffsetNs);
          if !locked {
            if lockCandidateStartMs == 0 {
              lockCandidateStartMs := nowMs;
              candidate := |log| - 1;
            }
            if Wrap32(nowMs - lockCandidateStartMs) >= LOCK_STABLE_TIME_MS {
              locked := true;
              lockStartMs := nowMs;
              lockCandidateStartMs := 0;
            }
          }
        } else {
          lockCandidateStartMs := 0;
          if locked && maxDev > LOCK_THRESHOLD_NS * 4 {
            locked := false;
            lockStartMs := 0;
          }
        }
      }
    }

    /** update_offset, at time `atMs`. */
    method UpdateOffset(newOffset: int, atMs: nat)
      requires Valid() && NotBefore(log, atMs)
      modifies this, samples
      ensures Valid() && syncAtMs == atMs && InTime(log)
      ensures Rejected(old(log), old(filteredOffsetNs), newOffset) ==>
        log == old(log) && filteredOffsetNs == old(filteredOffsetNs) && locked == old(locked)
        && lockCandidateStartMs == old(lockCandidateStartMs)
      ensures !Rejected(old(log), old(filteredOffsetNs), newOffset) ==>
        && log == old(log) + [Update(atMs, newOffset)]
        && (locked <==> NextLocked(log, filteredOffsetNs, old(lockCandidateStartMs), old(locked), Wrap32(atMs)))
        && lockCandidateStartMs == NextCandidate(log, old(lockCandidateStartMs), old(locked), Wrap32(atMs))
      ensures !old(locked) && locked ==>
        exists c :: 0 <= c < |log| && SteadySince(log, c) && log[|log| - 1].atMs - log[c].atMs >= LOCK_STABLE_TIME_MS
      ensures old(locked) && !locked ==> !Within(Window(log), filteredOffsetNs, 4 * LOCK_THRESHOLD_NS + 1)
      ensures |log| > |old(log)| <==> old(log) == [] || -50000000 <= newOffset - old(filteredOffsetNs) <= 50000000
      ensures !old(locked) && locked ==> |log| >= 8 && DeviatesBy(log, filteredOffsetNs, 39999999)
      ensures old(locked) && log != old(log) ==> (locked <==> |log| < 8 || DeviatesBy(log, filteredOffsetNs, 160000000))
      ensures unchanged(this`awaitingFollowup, this`lastSyncSeq, this`lastSyncLocalNs)
    {
      hide Ring, IsMedian, Window, Within, DeviatesBy, Steady, SteadySince, CandidateHolds, InTime, ElapsedMs,
           NextCandidate;
      FillMeans();
      var nowMs := Wrap32(atMs);
      lastSyncMs, syncAtMs := nowMs, atMs;
      if sampleFill > 0 {
        var diff := newOffset - filteredOffsetNs;
        if diff < 0 {
          diff := -diff;
        }
        if diff > OUTLIER_THRESHOLD_NS {
          return;
        }
      }
      Accept(newOffset, atMs);
    }

    /** The rest of update_offset, for a sample that is no outlier. */
    method Accept(newOffset: int, atMs: nat)
      requires Valid() && NotBefore(log, atMs)
      modifies this`locked, this`lockStartMs, this`lockCandidateStartMs, this`candidate
      modifies this`sampleIndex, this`sampleFill, this`filteredOffsetNs, this`log, samples
      ensures Valid() && InTime(log) && log == old(log) + [Update(atMs, newOffset)]
      ensures locked <==> NextLocked(log, filteredOffsetNs, old(lockCandidateStartMs), old(locked), Wrap32(atMs))
      ensures lockCandidateStartMs == NextCandidate(log, old(lockCandidateStartMs), old(locked), Wrap32(atMs))
      ensures !old(locked) && locked ==>
        exists c :: 0 <= c < |log| && SteadySince(log, c) && log[|log| - 1].atMs - log[c].atMs >= LOCK_STABLE_TIME_MS
      ensures old(locked) && !locked ==> !Within(Window(log), filteredOffsetNs, 4 * LOCK_THRESHOLD_NS + 1)
      ensures !old(locked) && locked ==> |log| >= 8 && DeviatesBy(log, filteredOffsetNs, 39999999)
      ensures old(locked) ==> (locked <==> |log| < 8 || DeviatesBy(log, filteredOffsetNs, 160000000))
    {
      hide Ring, IsMedian, Window, Within, DeviatesBy, Steady, SteadySince, CandidateHolds, InTime, ElapsedMs,
           NextCandidate;
      ghost var before, cand, start := log, candidate, lockCandidateStartMs;
      TimeAppends(log, Update(atMs, newOffset));
      AddSample(atMs, newOffset);
      assert log[..|log| - 1] == before;
      CheckLock(Wrap32(atMs));
      DeviationMeans(log, filteredOffsetNs);
      SteadyMeans(log, filteredOffsetNs);
      if !old(locked) && locked {
        LockWasEarned(log, start, cand);
      }
    }

    /** ptp_clock_is_locked, at time `atMs`. In real time, up to a turn of the 32-bit clock, a lock lapses
        exactly when more than five seconds have passed since update_offset last ran, unless that was at a
        multiple of 2^32 ms: then the zero stands for no update at all and the lock never lapses. */
    method IsLocked(atMs: nat) returns (r: bool)
      requires Valid() && syncAtMs <= atMs
      modifies this`locked, this`lockStartMs, this`lockCandidateStartMs
      ensures Valid() && r == locked
      ensures locked == (old(locked) && !(Wrap32(syncAtMs) != 0 && Wrap32(atMs - syncAtMs) > LOCK_TIMEOUT_MS))
      ensures old(locked) && atMs - syncAtMs < 0x1_0000_0000 ==>
        (locked <==> Wrap32(syncAtMs) == 0 || atMs - syncAtMs <= 5000)
    {
      hide IsMedian, Window, SteadySince;
      WrapDifference(atMs, syncAtMs);
      if locked && lastSyncMs > 0 {
        if Wrap32(Wrap32(atMs) - lastSyncMs) > LOCK_TIMEOUT_MS {
          locked, lockStartMs, lockCandidateStartMs := false, 0, 0;
        }
      }
      r := locked;
    }

    /** A remote clock that has stepped: however long updates that are all outliers go on, with a query
        within five seconds of each, the estimate does not follow and every query answers as before. */
    method UpdateOutliers(updates: seq<Update>, queriesMs: seq<nat>) returns (answers: seq<bool>)
      requires Valid() && InTime(log + updates) && |queriesMs| == |updates|
      requires log != [] && forall i :: 0 <= i < |updates| ==>
        && !(-50000000 <= updates[i].offset - filteredOffsetNs <= 50000000)
        && updates[i].atMs <= queriesMs[i] <= updates[i].atMs + 5000
      modifies this, samples
      ensures Valid() && log == old(log) && filteredOffsetNs == old(filteredOffsetNs) && locked == old(locked)
      ensures |answers| == |updates| && forall i :: 0 <= i < |answers| ==> answers[i] == old(locked)
    {
      hide Ring, IsMedian, Window, CandidateHolds, NextLocked, NextCandidate, SteadySince;
      answers := [];
      for i := 0 to |updates|
        invariant Valid() && log == old(log) && filteredOffsetNs == old(filteredOffsetNs) && locked == old(locked)
        invariant |answers| == i && forall k :: 0 <= k < i ==> answers[k] == old(locked)
      {
        TimeOrder(log, updates, i);
        UpdateOffset(updates[i].offset, updates[i].atMs);
        var answer := IsLocked(queriesMs[i]);
        answers := answers + [answer];
      }
    }

    /** The filtered offset lies in every interval that holds a strict majority of the window. */
    lemma MajorityDecides(lo: int, hi: int)
      requires Valid() && log != []
      requires 2 * (CountAtMost(Window(log), hi) - CountBelow(Window(log), lo)) > |Window(log)|
      ensures lo <= filteredOffsetNs <= hi
    {
      hide IsMedian, Window;
      MajorityHoldsMedian(filteredOffsetNs, Window(log), lo, hi);
    }

    /** process_sync: note the arrival; a one-step Sync carries its own timestamp. */
    method ProcessSync(seqNo: Uint16, twoStep: bool, stamped: bool, ptpTimeNs: Uint64, localNs: int, atMs: nat)
      requires Valid() && NotBefore(log, atMs)
      modifies this, samples
      ensures Valid() && InTime(log) && lastSyncSeq == seqNo && lastSyncLocalNs == localNs
      ensures awaitingFollowup == (twoStep || !stamped)
      ensures log == old(log)
        + if !twoStep && stamped && !Rejected(old(log), old(filteredOffsetNs), ToInt64(ptpTimeNs) - localNs)
          then [Update(atMs, ToInt64(ptpTimeNs) - localNs)] else []
    {
      hide Valid, InTime, Rejected, NextLocked, NextCandidate;
      lastSyncSeq, lastSyncLocalNs, awaitingFollowup := seqNo, localNs, true;
      if !twoStep && stamped {
        UpdateOffset(ToInt64(ptpTimeNs) - localNs, atMs);
        awaitingFollowup := false;
      }
    }

    /** process_followup: only the first answer to the latest Sync counts. */
    method ProcessFollowup(seqNo: Uint16, stamped: bool, ptpTimeNs: Uint64, atMs: nat)
      requires Valid() && NotBefore(log, atMs)
      modifies this, samples
      ensures Valid() && InTime(log)
      ensures awaitingFollowup == (old(awaitingFollowup) && seqNo != old(lastSyncSeq))
      ensures log == old(log)
        + if old(awaitingFollowup) && seqNo == old(lastSyncSeq) && stamped
             && !Rejected(old(log), old(filteredOffsetNs), ToInt64(ptpTimeNs) - old(lastSyncLocalNs))
          then [Update(atMs, ToInt64(ptpTimeNs) - old(lastSyncLocalNs))] else []
    {
      hide Valid, InTime, Rejected, NextLocked, NextCandidate;
      if !awaitingFollowup {
        return;
      }
      if seqNo != lastSyncSeq {
        return;
      }
      awaitingFollowup := false;
      if stamped {
        UpdateOffset(ToInt64(ptpTimeNs) - lastSyncLocalNs, atMs);
      }
    }
  }

  // ---------- a remote clock that stands, and samples held up on the way ----------

  /** The sample is within d of theta. */
  predicate Good(u: Update, theta: int, d: nat) {
    theta - d <= u.offset <= theta + d
  }

  /** It is more than 50 ms outside that, early or late. */
  predicate Stray(u: Update, theta: int, d: nat) {
    u.offset < theta - d - 50000000 || u.offset > theta + d + 50000000
  }

  function GoodOnes(updates: seq<Update>, theta: int, d: nat): seq<Update> {
    if updates == [] then []
    else
      var u := updates[|updates| - 1];
      GoodOnes(updates[..|updates| - 1], theta, d) + if Good(u, theta, d) then [u] else []
  }

  /** The samples of the window are good. */
  ghost predicate WindowGood(log: seq<Update>, theta: int, d: nat) {
    forall k :: 0 <= k < |log| && |log| - 16 <= k ==> Good(log[k], theta, d)
  }

  lemma {:induction false} CountsInBand(w: seq<int>, lo: int, hi: int)
    requires forall i :: 0 <= i < |w| ==> lo <= w[i] <= hi
    ensures CountAtMost(w, hi) == |w| && CountBelow(w, lo) == 0
    decreases |w|
  {
    if w != [] {
      CountsInBand(w[1..], lo, hi);
    }
  }

  /** Then so is the median, and the window is steady when it is narrow enough. */
  lemma GoodWindow(log: seq<Update>, filtered: int, theta: int, d: nat)
    requires log != [] && WindowGood(log, theta, d) && IsMedian(filtered, Window(log))
    ensures theta - d <= filtered <= theta + d
    ensures 2 * d < 40000000 ==>
      (Steady(log) <==> |log| >= 8) && Within(Window(log), filtered, 4 * LOCK_THRESHOLD_NS + 1)
  {
    hide IsMedian;
    var w := Window(log);
    forall i | 0 <= i < |w| ensures theta - d <= w[i] <= theta + d {
      var first := if |log| < 16 then 0 else |log| - 16;
      assert w[i] == log[first + i].offset && Good(log[first + i], theta, d);
    }
    CountsInBand(w, theta - d, theta + d);
    MajorityHoldsMedian(filtered, w, theta - d, theta + d);
    SteadyMeans(log, filtered);
  }

  /** A sequence of updates each of which is good or a stray, the first one good. */
  ghost predicate GoodAndStray(updates: seq<Update>, theta: int, d: nat) {
    && (forall i :: 0 <= i < |updates| ==> Good(updates[i], theta, d) || Stray(updates[i], theta, d))
    && (updates != [] ==> Good(updates[0], theta, d))
  }

  /** Locked exactly once a second has passed since the eighth sample; until then the candidate period runs
      from that one on. */
  ghost predicate LocksInTime(log: seq<Update>, locked: bool, candidateMs: Uint32) {
    && (locked <==> |log| >= 8 && log[|log| - 1].atMs - log[7].atMs >= 1000)
    && candidateMs == if |log| < 8 || locked then 0 else log[7].atMs
  }

  /** What holds after each update, at time `atMs`. */
  ghost predicate Tracking(log: seq<Update>, locked: bool, candidateMs: Uint32, atMs: nat, theta: int, d: nat) {
    && NotBefore(log, atMs) && WindowGood(log, theta, d)
    && (forall k :: 0 <= k < |log| ==> 0 < log[k].atMs)
    && (2 * d < 40000000 ==> LocksInTime(log, locked, candidateMs))
  }

  lemma TimePasses(log: seq<Update>, locked: bool, candidateMs: Uint32, atMs: nat, later: nat, theta: int, d: nat)
    requires Tracking(log, locked, candidateMs, atMs, theta, d) && atMs <= later
    ensures Tracking(log, locked, candidateMs, later, theta, d)
  {
  }

  /** One update. */
  method Track(c: Clock, u: Update, theta: int, d: nat)
    requires c.Valid() && Tracking(c.log, c.locked, c.lockCandidateStartMs, u.atMs, theta, d)
    requires 0 < u.atMs < 0x1_0000_0000 && 2 * d <= 50000000
    requires Good(u, theta, d) || (c.log != [] && Stray(u, theta, d))
    modifies c, c.samples
    ensures c.Valid() && c.log == old(c.log) + if Good(u, theta, d) then [u] else []
    ensures Tracking(c.log, c.locked, c.lockCandidateStartMs, u.atMs, theta, d)
  {
    hide Tracking, InTime, NextLocked, NextCandidate, IsMedian, Window, Within, CandidateHolds, Clock.Ring;
    TrackingMeans(c.log, c.locked, c.lockCandidateStartMs, u.atMs, theta, d);
    if c.log != [] {
      GoodWindow(c.log, c.filteredOffsetNs, theta, d);
    }
    ghost var before, wasLocked, start := c.log, c.locked, c.lockCandidateStartMs;
    c.UpdateOffset(u.offset, u.atMs);
    if Good(u, theta, d) {
      TrackingGoesOn(before, wasLocked, start, u, c.filteredOffsetNs, theta, d);
    }
  }

  lemma TrackingGoesOn(log: seq<Update>, locked: bool, startMs: Uint32, u: Update, filtered: int, theta: int, d: nat)
    requires Tracking(log, locked, startMs, u.atMs, theta, d) && Good(u, theta, d)
    requires 0 < u.atMs < 0x1_0000_0000 && IsMedian(filtered, Window(log + [u]))
    ensures var nowMs := Wrap32(u.atMs);
      Tracking(log + [u], NextLocked(log + [u], filtered, startMs, locked, nowMs),
               NextCandidate(log + [u], startMs, locked, nowMs), u.atMs, theta, d)
  {
    hide IsMedian, Window, Within, Steady;
    GoodWindow(log + [u], filtered, theta, d);
    TimeAppends(log, u);
  }

  /** A clock from its start, on samples within d of theta, 2 d at most 50 ms, and any number of strays
      more than 50 ms outside that, held up or early: it takes exactly the good ones and its estimate is
      within d of theta. With 2 d below 40 ms it is locked exactly from the first good sample on that
      comes a second after the eighth. */
  method TracksSteadyRemote(updates: seq<Update>, theta: int, d: nat) returns (c: Clock)
    requires InTime(updates) && GoodAndStray(updates, theta, d) && 2 * d <= 50000000
    requires forall i :: 0 <= i < |updates| ==> 0 < updates[i].atMs < 0x1_0000_0000
    ensures fresh(c) && fresh(c.samples) && c.Valid()
    ensures c.log == GoodOnes(updates, theta, d)
    ensures updates != [] ==> theta - d <= c.filteredOffsetNs <= theta + d
    ensures var good := GoodOnes(updates, theta, d);
      2 * d < 40000000 ==> (c.locked <==> |good| >= 8 && good[|good| - 1].atMs - good[7].atMs >= 1000)
  {
    hide Tracking, InTime, GoodAndStray, WindowGood, IsMedian, Window, Within, CandidateHolds, Clock.Ring;
    c := new Clock();
    ghost var atMs := 0;
    assert Tracking([], false, 0, 0, theta, d) by { TrackingStarts(theta, d); }
    for i := 0 to |updates|
      invariant fresh(c) && fresh(c.samples) && c.Valid() && c.log == GoodOnes(updates[..i], theta, d)
      invariant i > 0 ==> c.log != [] && atMs == updates[i - 1].atMs
      invariant i == 0 ==> atMs == 0
      invariant Tracking(c.log, c.locked, c.lockCandidateStartMs, atMs, theta, d)
    {
      assert updates[..i + 1][..i] == updates[..i];
      UpdateAt(updates, theta, d, i);
      TimePasses(c.log, c.locked, c.lockCandidateStartMs, atMs, updates[i].atMs, theta, d);
      Track(c, updates[i], theta, d);
      atMs := updates[i].atMs;
    }
    assert updates[..|updates|] == updates;
    TrackingMeans(c.log, c.locked, c.lockCandidateStartMs, atMs, theta, d);
    if updates != [] {
      GoodWindow(c.log, c.filteredOffsetNs, theta, d);
    }
  }

  lemma UpdateAt(updates: seq<Update>, theta: int, d: nat, i: nat)
    requires InTime(updates) && GoodAndStray(updates, theta, d) && i < |updates|
    ensures Good(updates[i], theta, d) || (i > 0 && Stray(updates[i], theta, d))
    ensures i > 0 ==> updates[i - 1].atMs <= updates[i].atMs
  {
  }

  lemma TrackingStarts(theta: int, d: nat)
    ensures Tracking([], false, 0, 0, theta, d)
  {
  }

  lemma TrackingMeans(log: seq<Update>, locked: bool, candidateMs: Uint32, atMs: nat, theta: int, d: nat)
    requires Tracking(log, locked, candidateMs, atMs, theta, d)
    ensures NotBefore(log, atMs) && WindowGood(log, theta, d)
    ensures 2 * d < 40000000 ==> LocksInTime(log, locked, candidateMs)
  {
  }

  // ---------- a lock that outlives its updates ----------

  lemma {:induction false} ZerosCount(w: seq<int>)
    requires forall i :: 0 <= i < |w| ==> w[i] == 0
    ensures CountAtMost(w, 0) == |w| && CountAtMost(w, -1) == 0
    decreases |w|
  {
    if w != [] {
      ZerosCount(w[1..]);
    }
  }

  /** With all offsets zero the median is zero, and eight make the clock steady. */
  lemma ZerosAreSteady(log: seq<Update>)
    requires log != [] && forall i :: 0 <= i < |log| ==> log[i].offset == 0
    ensures forall m :: IsMedian(m, Window(log)) ==> m == 0
    ensures Steady(log) <==> |log| >= MIN_SAMPLES_FOR_LOCK
  {
    var w := Window(log);
    assert forall i :: 0 <= i < |w| ==> w[i] == 0;
    ZerosCount(w);
    assert IsMedian(0, w) && Within(w, 0, LOCK_THRESHOLD_NS);
    forall m | IsMedian(m, w) ensures m == 0 {
      RankIsUnique(m, 0, w, |w| / 2);
    }
  }

  /** Nine updates without offset, one a second. */
  method LockedClock() returns (c: Clock)
    ensures fresh(c) && fresh(c.samples) && c.Valid() && c.locked && c.syncAtMs == 9000
    ensures NotBefore(c.log, 9000) && c.log != [] && c.filteredOffsetNs == 0
  {
    hide IsMedian, Window, Within, Steady, CandidateHolds, SteadySince, Clock.Ring;
    c := new Clock();
    assert NotBefore(c.log, 0);
    for i := 0 to 9
      invariant fresh(c) && fresh(c.samples) && c.Valid() && |c.log| == i && NotBefore(c.log, 1000 * i)
      invariant c.filteredOffsetNs == 0 && c.syncAtMs == 1000 * i
      invariant forall k :: 0 <= k < i ==> c.log[k].offset == 0
      invariant c.lockCandidateStartMs == (if i == 8 then 8000 else 0)
      invariant c.locked <==> i == 9
    {
      c.UpdateOffset(0, 1000 * (i + 1));
      ZerosAreSteady(c.log);
    }
  }

  /** The last update comes 2^32 ms after the clock started; an hour later the lock still stands. */
  method LockOutlivesUpdates() returns (answer: bool)
    ensures answer
  {
    hide InTime;
    var c := LockedClock();
    c.UpdateOffset(1000000000, 0x1_0000_0000);
    answer := c.IsLocked(0x1_0000_0000 + 3600000);
  }
}
