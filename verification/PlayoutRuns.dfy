/** Runs of the receiver: any sequence of its public calls that reach the buffer or the scheduler, each
    one atomic step. */
module PlayoutRuns {
  import opened MachineIntegers
  import opened AudioBuffer
  import opened AudioTiming
  import opened AudioReceiver

  datatype Call =
    | Feed(at: int, channels: int, pcm: seq<Sample>)
    | ReadCall(env: Env)
    | Anchor(nowUs: int, networkNs: Uint64, rtp: Uint32, sampleRate: int)
    | Playing(flag: bool)
    | Deferred(untilTs: Uint32)
    | ResetTiming
    | Retarget(format: Format, latencyUs: Uint32)
    | FlushCall
    | SeekFlushCall

  function After(r: Receiver, c: Call): (Receiver, Event) {
    match c
    case Feed(at, channels, pcm) => (ProcessFrame(r, at, channels, pcm).0, Idle)
    case ReadCall(env) => ReadAudio(r, env)
    case Anchor(nowUs, networkNs, rtp, sampleRate) => (SetAnchorTime(r, nowUs, networkNs, rtp, sampleRate), Idle)
    case Playing(flag) => (r.(t := SetPlaying(r.t, flag)), Idle)
    case Deferred(untilTs) => (SetDeferredFlush(r, untilTs), Idle)
    case ResetTiming => (r.(t := Reset(r.t)), Idle)
    case Retarget(format, latencyUs) => (r.(t := Retargeted(r.t, format, latencyUs)), Idle)
    case FlushCall => (Flush(r), Idle)
    case SeekFlushCall => (SeekFlush(r), Idle)
  }

  function Run(r: Receiver, calls: seq<Call>): Receiver
    decreases |calls|
  {
    if calls == [] then r else Run(After(r, calls[0]).0, calls[1..])
  }

  function Events(r: Receiver, calls: seq<Call>): seq<Event>
    decreases |calls|
  {
    if calls == [] then []
    else
      var (r1, e) := After(r, calls[0]);
      [e] + Events(r1, calls[1..])
  }

  lemma {:induction false} RunSplits(r: Receiver, a: seq<Call>, b: seq<Call>)
    ensures Run(r, a + b) == Run(Run(r, a), b)
    decreases |a|
  {
    hide After;
    if a == [] {
      assert a + b == b;
    } else {
      assert (a + b)[1..] == a[1..] + b;
      RunSplits(After(r, a[0]).0, a[1..], b);
    }
  }
}
