/** RTP timestamps (RFC 3550, section 5.1): 32-bit counters that wrap and are compared by the sign
    of their 32-bit difference. */
module Rtp {
  import opened MachineIntegers

  const TWO31: int := 0x8000_0000
  const TWO32: int := 0x1_0000_0000

  function TsCmp(a: Uint32, b: Uint32): int {
    ToInt32(Wrap32(a - b))
  }

  /** Two positions of the sender's unbounded timeline compare correctly through their 32-bit
      timestamps exactly while they are less than half a range apart. */
  lemma {:induction false} TsCmpIsDistance(a: int, b: int)
    ensures TsCmp(Wrap32(a), Wrap32(b)) == a - b <==> -TWO31 <= a - b < TWO31
  {
    var qa, qb := a / 0x1_0000_0000, b / 0x1_0000_0000;
    assert Wrap32(a) - Wrap32(b) == (a - b) + (qb - qa) * 0x1_0000_0000;
    WrapIgnoresTurns(a - b, qb - qa);
  }
}
