/** The S/PDIF encoder: PCM bytes in, half-blocks of 192 sub-frames out, each sub-frame a preamble
    word and a data word (IEC 60958-1, sections 4.1.2 and 4.3). */
module Spdif {
  import opened MachineIntegers
  import opened SpdifCode

  type Bytes = seq<Byte>
  type Words = seq<Uint32>

  const BUF_WORDS := 384
  const BMC_B: Uint32 := 0x33173333
  const BMC_M: Uint32 := 0x331d3333
  const BMC_W: Uint32 := 0x331b3333
  const MW_DIF: Uint32 := 0x00060000
  const SYNC_FLIP: Byte := 0x0a

  function Xor32(a: Uint32, b: Uint32): Uint32 {
    ((a as bv32) ^ (b as bv32)) as int
  }

  /** XOR into byte 2 of a little-endian word. */
  function FlipSync(w: Uint32): Uint32 {
    w - w / 0x1_0000 % 0x100 * 0x1_0000 + XorByte(w / 0x1_0000 % 0x100, SYNC_FLIP) * 0x1_0000
  }

  /** The preambles of the stream, sub-frame by sub-frame: B where a block of 192 frames starts, M for
      every other left sample, W for every right one. */
  function Preamble(n: nat): Uint32 {
    if n % 2 == 1 then BMC_W else if n % 384 == 0 then BMC_B else BMC_M
  }

  /** The word at an even place of the buffer, before the first is flipped. */
  function Fixed(i: nat): Uint32 {
    if i % 4 == 0 then BMC_M else BMC_W
  }

  /** A half-block for 96 stereo frames of PCM. */
  function HalfBlock(chunk: Bytes, even: bool): (w: Words)
    requires |chunk| == BUF_WORDS
    ensures |w| == BUF_WORDS
  {
    seq(BUF_WORDS, i requires 0 <= i < BUF_WORDS =>
      if i == 0 then (if even then BMC_B else BMC_M)
      else if i % 2 == 0 then Fixed(i)
      else DataWord(chunk[i - 1], chunk[i]))
  }

  /** The PCM of half-block k. */
  function Chunk(pcm: Bytes, k: nat): (c: Bytes)
    requires BUF_WORDS * (k + 1) <= |pcm|
    ensures |c| == BUF_WORDS
  {
    pcm[BUF_WORDS * k..][..BUF_WORDS]
  }

  /** The half-blocks that `pcm` fills. */
  function HalfBlocks(pcm: Bytes): (b: seq<Words>)
    ensures |b| == |pcm| / BUF_WORDS
  {
    seq(|pcm| / BUF_WORDS, k requires 0 <= k < |pcm| / BUF_WORDS => HalfBlock(Chunk(pcm, k), k % 2 == 0))
  }

  /** What has been sent never depends on what follows. */
  lemma HalfBlocksGrow(pcm: Bytes, more: Bytes)
    ensures |HalfBlocks(pcm)| <= |HalfBlocks(pcm + more)|
    ensures HalfBlocks(pcm + more)[..|HalfBlocks(pcm)|] == HalfBlocks(pcm)
  {
    hide HalfBlock;
    forall k | 0 <= k < |HalfBlocks(pcm)| ensures HalfBlocks(pcm + more)[k] == HalfBlocks(pcm)[k] {
      assert Chunk(pcm + more, k) == Chunk(pcm, k);
    }
  }

  /** The next 384 bytes make the next half-block. */
  lemma {:induction false} HalfBlocksExtend(pcm: Bytes, chunk: Bytes)
    requires |pcm| % BUF_WORDS == 0 && |chunk| == BUF_WORDS
    ensures HalfBlocks(pcm + chunk) == HalfBlocks(pcm) + [HalfBlock(chunk, |pcm| / BUF_WORDS % 2 == 0)]
  {
    hide HalfBlock;
    HalfBlocksGrow(pcm, chunk);
    var n := |pcm| / BUF_WORDS;
    var all := HalfBlocks(pcm + chunk);
    assert Chunk(pcm + chunk, n) == chunk;
    assert all == all[..n] + [all[n]];
  }

  /** Less than a half-block more changes nothing. */
  lemma TailDoesNotCount(whole: Bytes, tail: Bytes)
    requires |whole| % BUF_WORDS == 0 && |tail| < BUF_WORDS
    ensures HalfBlocks(whole + tail) == HalfBlocks(whole)
  {
    HalfBlocksGrow(whole, tail);
  }

  lemma SubframeNumber(k: nat, j: nat)
    requires j < 192
    ensures (192 * k + j) % 2 == j % 2 && (192 * k + j) % 384 == if k % 2 == 0 then j else 192 + j
  {
    var q := k / 2;
    assert k == 2 * q + k % 2;
    assert 192 * k + j == 384 * q + (192 * (k % 2) + j);
  }

  lemma BlockAt(pcm: Bytes, k: nat)
    requires BUF_WORDS * (k + 1) <= |pcm|
    ensures k < |HalfBlocks(pcm)| && HalfBlocks(pcm)[k] == HalfBlock(Chunk(pcm, k), k % 2 == 0)
  {
    hide HalfBlock, Chunk;
  }

  lemma SlotPreamble(chunk: Bytes, even: bool, j: nat)
    requires |chunk| == BUF_WORDS && j < 192
    ensures HalfBlock(chunk, even)[2 * j] == if j % 2 == 1 then BMC_W else if j == 0 && even then BMC_B else BMC_M
  {
    hide DataWord;
  }

  /** Sent end to end, half-blocks carry the preambles of the standard's stream: B opens a block once
      in 192 frames, from the very first sub-frame on. */
  lemma {:induction false} PreamblesFollow(pcm: Bytes, k: nat, j: nat)
    requires BUF_WORDS * (k + 1) <= |pcm| && j < 192
    ensures k < |HalfBlocks(pcm)| && HalfBlocks(pcm)[k][2 * j] == Preamble(192 * k + j)
  {
    hide HalfBlock, HalfBlocks, Chunk;
    BlockAt(pcm, k);
    SlotPreamble(Chunk(pcm, k), k % 2 == 0, j);
    SubframeNumber(k, j);
  }

  /** And sub-frame n carries sample n: its low byte at 2n, its high byte next. */
  lemma {:induction false} SamplesFollow(pcm: Bytes, k: nat, j: nat)
    requires BUF_WORDS * (k + 1) <= |pcm| && j < 192
    ensures k < |HalfBlocks(pcm)|
    ensures var n := 192 * k + j; HalfBlocks(pcm)[k][2 * j + 1] == DataWord(pcm[2 * n], pcm[2 * n + 1])
  {
    hide DataWord, HalfBlocks;
    BlockAt(pcm, k);
  }

  /** Levels given as zeros and ones. */
  function Levels(s: string): (r: seq<bool>)
    ensures |r| == |s|
  {
    seq(|s|, i requires 0 <= i < |s| => s[i] == '1')
  }

  /** A preamble word holds, sent from the top, four zero bits of the sub-frame before, the preamble of the
      standard for a line that is high, and eight zero bits of the sub-frame it opens; all end high. */
  lemma {:induction false} PreambleWords(word: Uint32, preamble: string)
    requires (word, preamble) == (BMC_B, "11101000") || (word, preamble) == (BMC_M, "11100010")
             || (word, preamble) == (BMC_W, "11100100")
    ensures word == Number(Mark(Levels("0000"), true) + Flip(Levels(preamble)) + Mark(Levels("00000000"), true))
    ensures Flip(Levels(preamble))[7]
  {
    hide Mark, Number;
    var zeros, levels := Levels("0000"), Flip(Levels(preamble));
    var before, after := Mark(zeros, true), Mark(zeros + zeros, true);
    FourZeros();
    assert Levels("00000000") == zeros + zeros;
    EightLevels(levels[0], levels[1], levels[2], levels[3], levels[4], levels[5], levels[6], levels[7]);
    assert levels == [levels[0], levels[1], levels[2], levels[3], levels[4], levels[5], levels[6], levels[7]];
    NumberAppends(before, levels);
    NumberAppends(before + levels, after);
    Powers();
  }

  lemma FourZeros()
    ensures var zeros := Levels("0000");
      Number(Mark(zeros, true)) == 0x33 && Number(Mark(zeros + zeros, true)) == 0x3333
  {
    hide Mark, Number;
    var zeros := Levels("0000");
    var m := Mark(zeros, true);
    assert zeros == [false, false, false, false];
    FourBits(false, false, false, false);
    EightLevels(m[0], m[1], m[2], m[3], m[4], m[5], m[6], m[7]);
    MarkJoins(zeros, zeros);
    Powers();
  }

  /** A buffer with its preambles and all its data in place is the half-block. */
  lemma WordsAreHalfBlock(words: Words, chunk: Bytes, even: bool)
    requires |words| == |chunk| == BUF_WORDS && words[0] == (if even then BMC_B else BMC_M)
    requires forall i :: 0 < i < BUF_WORDS && i % 2 == 0 ==> words[i] == Fixed(i)
    requires forall i :: 0 <= i < BUF_WORDS && i % 2 == 1 ==> words[i] == DataWord(chunk[i - 1], chunk[i])
    ensures words == HalfBlock(chunk, even)
  {
    hide DataWord, Fixed;
  }

  lemma PreambleBytes()
    ensures FlipSync(BMC_M) == BMC_B && FlipSync(BMC_B) == BMC_M
  {
    hide XorByte;
    SyncFlips();
  }

  lemma SyncFlips()
    ensures XorByte(0x1d, SYNC_FLIP) == 0x17 && XorByte(0x17, SYNC_FLIP) == 0x1d
  {
  }

  lemma PreambleDifference()
    ensures Xor32(BMC_W, MW_DIF) == BMC_M && Xor32(BMC_M, MW_DIF) == BMC_W
  {
  }

  class Encoder {
    const buf: array<Uint32>
    var ptr: nat                // index of the next preamble word
    var sent: seq<Words>        // half-blocks handed to the I2S channel since it was enabled
    ghost var whole: Bytes      // the PCM that was sent since then
    ghost var pending: Bytes    // the PCM waiting in the buffer

    /** The preamble words; the first was flipped with every half-block sent. */
    ghost predicate Framed(flipped: bool)
      reads buf
    {
      && buf.Length == BUF_WORDS
      && buf[0] == (if flipped then BMC_B else BMC_M)
      && forall i :: 0 < i < BUF_WORDS && i % 2 == 0 ==> buf[i] == Fixed(i)
    }

    /** The data words before the write pointer. */
    ghost predicate Filled()
      reads this`pending, buf
    {
      && buf.Length == BUF_WORDS
      && |pending| <= BUF_WORDS && |pending| % 2 == 0
      && forall i :: 0 <= i < |pending| && i % 2 == 1 ==> buf[i] == DataWord(pending[i - 1], pending[i])
    }

    ghost predicate Sending()
      reads this`sent, this`whole, buf
    {
      |whole| == BUF_WORDS * |sent| && sent == HalfBlocks(whole) && Framed(|sent| % 2 == 1)
    }

    ghost predicate Valid()
      reads this, buf
    {
      Sending() && Filled() && ptr == |pending| < BUF_WORDS
    }

    constructor ()
      ensures Valid() && whole == pending == [] && fresh(buf)
    {
      buf := new Uint32[BUF_WORDS];
      ptr, sent, whole, pending := 0, [], [], [];
      new;
      Init();
    }

    /** spdif_buf_init */
    method Init()
      requires buf.Length == BUF_WORDS
      modifies buf
      ensures Framed(false)
    {
      hide Xor32;
      PreambleDifference();
      var word, i := BMC_W, 0;
      while i < BUF_WORDS
        invariant 0 <= i <= BUF_WORDS && i % 2 == 0 && word == (if i % 4 == 0 then BMC_W else BMC_M)
        invariant forall n :: 0 <= n < i && n % 2 == 0 ==> buf[n] == Fixed(n)
      {
        word := Xor32(word, MW_DIF);
        buf[i] := word;
        i := i + 2;
      }
    }

    /** The flush branch of the playback task: a half-filled buffer is dropped and the stream begins
        again with a block start. */
    method Flush()
      requires buf.Length == BUF_WORDS
      modifies this, buf
      ensures Valid() && whole == pending == []
    {
      Init();
      ptr, sent, whole, pending := 0, [], [], [];
    }

    /** One sample into the slot at the pointer. */
    method PutSample(lo: Byte, hi: Byte)
      requires Valid()
      modifies buf, this`ptr, this`pending
      ensures Sending() && Filled() && pending == old(pending) + [lo, hi] && ptr == |pending|
    {
      hide DataWord, HalfBlocks, Fixed;
      buf[ptr + 1] := DataWord(lo, hi);
      ptr := ptr + 2;
      pending := pending + [lo, hi];
    }

    /** A full buffer goes out with its first preamble flipped. */
    method SendHalfBlock()
      requires Sending() && Filled() && ptr == |pending| == BUF_WORDS
      modifies buf, this`ptr, this`sent, this`whole, this`pending
      ensures Valid() && whole == old(whole) + old(pending) && pending == []
    {
      hide DataWord, HalfBlock, HalfBlocks, Fixed, FlipSync;
      HalfBlocksExtend(whole, pending);
      FlipFirst();
      WordsAreHalfBlock(buf[..], pending, |sent| % 2 == 0);
      sent := sent + [buf[..]];
      ptr, whole, pending := 0, whole + pending, [];
    }

    /** The XOR on byte 2 of the buffer. */
    method FlipFirst()
      requires Framed(|sent| % 2 == 1) && Filled()
      modifies buf
      ensures Framed(|sent| % 2 == 0) && Filled()
    {
      hide DataWord, Fixed, FlipSync;
      PreambleBytes();
      buf[0] := FlipSync(buf[0]);
    }

    /** spdif_write: whatever was written before, and however it was cut up, the half-blocks sent are
        those of all the PCM in a row. */
    method Write(src: Bytes)
      requires Valid() && |src| % 2 == 0
      modifies this, buf
      ensures Valid() && whole + pending == old(whole + pending) + src
      ensures sent == HalfBlocks(old(whole + pending) + src)
    {
      hide Sending, Filled;
      ghost var before := whole + pending;
      var p := 0;
      while p < |src|
        invariant 0 <= p <= |src| && p % 2 == 0 && Valid() && whole + pending == before + src[..p]
      {
        ghost var w, q, rest := whole, pending, [src[p], src[p + 1]];
        PutSample(src[p], src[p + 1]);
        assert w + (q + rest) == (w + q) + rest;
        p := p + 2;
        assert src[..p] == src[..p - 2] + rest;
        assert (before + src[..p - 2]) + rest == before + src[..p];
        if ptr >= BUF_WORDS {
          AtMostFull();
          SendHalfBlock();
          assert whole + [] == whole;
        }
      }
      assert src[..|src|] == src;
      Finish();
    }

    lemma AtMostFull()
      requires Filled() && ptr == |pending| >= BUF_WORDS
      ensures ptr == BUF_WORDS
    {
    }

    lemma Finish()
      requires Valid()
      ensures sent == HalfBlocks(whole + pending)
    {
      TailDoesNotCount(whole, pending);
    }
  }
}
