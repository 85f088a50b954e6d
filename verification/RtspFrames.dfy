/** The encrypted RTSP stream as a value: blocks of at most 0x400 bytes, each sent as a two-byte
    length that is also the associated data, and a ChaCha20-Poly1305 box (RFC 8439, section 2.8)
    under a counter nonce. */
module RtspFrames {
  import opened MachineIntegers
  import opened Wrappers

  const ENCRYPTED_BLOCK_MAX := 0x400
  const TAG_BYTES := 16

  type Bytes = seq<Byte>

  /** The cipher: key, nonce and associated data, then the message or the box. */
  datatype Aead = Aead(seal: (Bytes, Bytes, Bytes, Bytes) -> Bytes,
                       open: (Bytes, Bytes, Bytes, Bytes) -> Option<Bytes>) {
    /** A box is sixteen bytes longer than its message and opens to it; what opens is that much shorter. */
    ghost predicate Sound() {
      && (forall k, n, ad, m :: |seal(k, n, ad, m)| == |m| + TAG_BYTES && open(k, n, ad, seal(k, n, ad, m)) == Some(m))
      && (forall k, n, ad, c :: open(k, n, ad, c).Some? ==> |open(k, n, ad, c).value| + TAG_BYTES == |c|)
    }
  }

  /** Little-endian bytes. */
  function LittleEndian(n: nat, len: nat): (s: Bytes)
    ensures |s| == len
  {
    if len == 0 then [] else [n % 256] + LittleEndian(n / 256, len - 1)
  }

  /** Four zero bytes, then the counter. */
  function Nonce(counter: Uint64): (s: Bytes)
    ensures |s| == 12
  {
    [0, 0, 0, 0] + LittleEndian(counter, 8)
  }

  function Next(counter: Uint64, blocks: nat): Uint64 {
    (counter + blocks) % 0x1_0000_0000_0000_0000
  }

  function Header(len: nat): (s: Bytes)
    ensures |s| == 2
  {
    [len % 256, len / 256 % 256]
  }

  /** The length two header bytes announce. */
  function Announced(header: Bytes): nat
    requires |header| >= 2
  {
    (header[0] as int) + 256 * (header[1] as int)
  }

  function BlockLength(len: nat): (r: nat)
    ensures r <= len && r <= ENCRYPTED_BLOCK_MAX && (len > 0 ==> r > 0)
  {
    if len > ENCRYPTED_BLOCK_MAX then ENCRYPTED_BLOCK_MAX else len
  }

  function Block(c: Aead, key: Bytes, counter: Uint64, m: Bytes): (s: Bytes)
    ensures |s| >= 2 && s[..2] == Header(|m|)
  {
    Header(|m|) + c.seal(key, Nonce(counter), Header(|m|), m)
  }

  /** The blocks a frame is cut into. */
  function Cut(data: Bytes): seq<Bytes>
    decreases |data|
  {
    if data == [] then [] else [data[..BlockLength(|data|)]] + Cut(data[BlockLength(|data|)..])
  }

  /** The blocks on the wire. */
  function Wire(c: Aead, key: Bytes, counter: Uint64, blocks: seq<Bytes>): Bytes
    decreases |blocks|
  {
    if blocks == [] then [] else Block(c, key, counter, blocks[0]) + Wire(c, key, Next(counter, 1), blocks[1..])
  }

  function Concat(blocks: seq<Bytes>): Bytes {
    if blocks == [] then [] else blocks[0] + Concat(blocks[1..])
  }

  /** Reading one block from what will arrive, into a buffer of `room` bytes: the message and what is
      left to arrive. */
  function ReadOne(c: Aead, key: Bytes, counter: Uint64, wire: Bytes, room: nat): Option<(Bytes, Bytes)> {
    if |wire| < 2 then None
    else
      var len := Announced(wire);
      if len == 0 || len > ENCRYPTED_BLOCK_MAX || len > room || |wire| < 2 + len + TAG_BYTES then None
      else
        match c.open(key, Nonce(counter), wire[..2], wire[2..2 + len + TAG_BYTES])
        case None => None
        case Some(m) => Some((m, wire[2 + len + TAG_BYTES..]))
  }

  /** The number four bytes give, low byte first. */
  function Word(s: Bytes): int
    requires |s| >= 4
  {
    s[0] as int + 0x100 * s[1] as int + 0x1_0000 * s[2] as int + 0x100_0000 * s[3] as int
  }

  /** A nonce is four zero bytes and the counter, low byte first. */
  lemma {:induction false} NonceBytes(counter: Uint64)
    ensures var n := Nonce(counter);
      |n| == 12 && n[..4] == [0, 0, 0, 0] && Word(n[4..]) + 0x1_0000_0000 * Word(n[8..]) == counter
  {
    hide Word;
    var n := Nonce(counter);
    FourBytes(counter, 8);
    FourBytes(counter / 0x1_0000_0000, 4);
    assert n[4..] == LittleEndian(counter, 8) && n[8..] == n[4..][4..];
  }

  lemma {:induction false} FourBytes(n: nat, len: nat)
    requires len >= 4
    ensures Word(LittleEndian(n, len)) == n % 0x1_0000_0000
    ensures LittleEndian(n, len)[4..] == LittleEndian(n / 0x1_0000_0000, len - 4)
  {
    hide LittleEndian;
    var n1, n2, n3 := n / 0x100, n / 0x100 / 0x100, n / 0x100 / 0x100 / 0x100;
    FirstByte(n, len);
    FirstByte(n1, len - 1);
    FirstByte(n2, len - 2);
    FirstByte(n3, len - 3);
    FourDigits(n);
    assert LittleEndian(n, len)[4..] == LittleEndian(n3 / 0x100, len - 4);
  }

  lemma FirstByte(n: nat, len: nat)
    requires len > 0
    ensures LittleEndian(n, len) == [n % 0x100] + LittleEndian(n / 0x100, len - 1)
  {
  }

  lemma FourDigits(n: nat)
    ensures var n1, n2, n3 := n / 0x100, n / 0x100 / 0x100, n / 0x100 / 0x100 / 0x100;
      && n % 0x100 + 0x100 * (n1 % 0x100) + 0x1_0000 * (n2 % 0x100) + 0x100_0000 * (n3 % 0x100) == n % 0x1_0000_0000
      && n3 / 0x100 == n / 0x1_0000_0000
  {
  }

  /** A block is the length of its message, low byte first, and the box made with those two bytes. */
  lemma BlockLayout(c: Aead, key: Bytes, counter: Uint64, m: Bytes)
    requires |m| <= 0x400
    ensures var b := Block(c, key, counter, m);
      b[0] as int + 0x100 * b[1] as int == |m| && b[2..] == c.seal(key, Nonce(counter), b[..2], m)
  {
    hide Nonce;
  }

  /** What is read is exactly what is there: a block is delivered if and only if the two length bytes
      announce between 1 and 0x400 bytes that fit the room, the box has arrived whole, and it opens. */
  lemma {:induction false} ReadsExactly(c: Aead, key: Bytes, counter: Uint64, wire: Bytes, room: nat, m: Bytes,
                                        rest: Bytes)
    requires c.Sound()
    ensures ReadOne(c, key, counter, wire, room) == Some((m, rest)) <==>
      && 0 < |m| <= 0x400 && |m| <= room && |wire| == 2 + |m| + 16 + |rest|
      && wire[0] as int + 0x100 * wire[1] as int == |m| && wire[2 + |m| + 16..] == rest
      && c.open(key, Nonce(counter), wire[..2], wire[2..2 + |m| + 16]) == Some(m)
  {
  }

  /** Reading `n` blocks one after the other, each into enough room: also the counter at the end. */
  function ReadMany(c: Aead, key: Bytes, counter: Uint64, wire: Bytes, n: nat): Option<(Bytes, Bytes, Uint64)>
    decreases n
  {
    if n == 0 then Some(([], wire, counter))
    else
      match ReadOne(c, key, counter, wire, ENCRYPTED_BLOCK_MAX)
      case None => None
      case Some((m, rest)) =>
        match ReadMany(c, key, Next(counter, 1), rest, n - 1)
        case None => None
        case Some((more, end, last)) => Some((m + more, end, last))
  }

  /** A block that fits reads back as itself, whatever follows it, if the counters agree. */
  lemma BlockReadsBack(c: Aead, key: Bytes, counter: Uint64, m: Bytes, tail: Bytes, room: nat)
    requires c.Sound() && 0 < |m| <= ENCRYPTED_BLOCK_MAX && |m| <= room
    ensures ReadOne(c, key, counter, Block(c, key, counter, m) + tail, room) == Some((m, tail))
  {
    var sealed := c.seal(key, Nonce(counter), Header(|m|), m);
    var wire := Block(c, key, counter, m) + tail;
    assert wire == Header(|m|) + (sealed + tail);
    assert Announced(wire) == |m|;
    assert wire[..2] == Header(|m|);
    assert wire[2..2 + |m| + TAG_BYTES] == sealed;
    assert wire[2 + |m| + TAG_BYTES..] == tail;
  }

  lemma {:induction false} BlocksReadBack(c: Aead, key: Bytes, counter: Uint64, blocks: seq<Bytes>, tail: Bytes)
    requires c.Sound() && forall i :: 0 <= i < |blocks| ==> 0 < |blocks[i]| <= ENCRYPTED_BLOCK_MAX
    ensures ReadMany(c, key, counter, Wire(c, key, counter, blocks) + tail, |blocks|)
         == Some((Concat(blocks), tail, Next(counter, |blocks|)))
    decreases |blocks|
  {
    if blocks == [] {
      NextAdds(counter, 0, 0);
      assert Wire(c, key, counter, blocks) + tail == tail;
    } else {
      hide Block, ReadOne, Next, Aead.Sound;
      var rest := Wire(c, key, Next(counter, 1), blocks[1..]) + tail;
      assert Wire(c, key, counter, blocks) + tail == Block(c, key, counter, blocks[0]) + rest;
      BlockReadsBack(c, key, counter, blocks[0], rest, ENCRYPTED_BLOCK_MAX);
      BlocksReadBack(c, key, Next(counter, 1), blocks[1..], tail);
      NextAdds(counter, 1, |blocks| - 1);
    }
  }

  lemma {:induction false} CutFits(data: Bytes)
    ensures Concat(Cut(data)) == data
    ensures forall i :: 0 <= i < |Cut(data)| ==> 0 < |Cut(data)[i]| <= ENCRYPTED_BLOCK_MAX
    ensures |Cut(data)| == (|data| + ENCRYPTED_BLOCK_MAX - 1) / ENCRYPTED_BLOCK_MAX
    decreases |data|
  {
    if data != [] {
      CutFits(data[BlockLength(|data|)..]);
    }
  }

  lemma {:induction false} WireAppends(c: Aead, key: Bytes, counter: Uint64, a: seq<Bytes>, b: seq<Bytes>)
    ensures Wire(c, key, counter, a + b) == Wire(c, key, counter, a) + Wire(c, key, Next(counter, |a|), b)
    decreases |a|
  {
    hide Block, Next;
    if a == [] {
      assert a + b == b;
      NextAdds(counter, 0, 0);
    } else {
      var second := Next(counter, 1);
      WireAppends(c, key, second, a[1..], b);
      NextAdds(counter, 1, |a| - 1);
      Regroup(a, b);
      var first, x := Block(c, key, counter, a[0]), Wire(c, key, second, a[1..]);
      var y := Wire(c, key, Next(counter, |a|), b);
      assert first + (x + y) == (first + x) + y;
    }
  }

  lemma Regroup(a: seq<Bytes>, b: seq<Bytes>)
    requires a != []
    ensures (a + b)[1..] == a[1..] + b && (a + b)[0] == a[0]
  {
  }

  lemma NextAdds(counter: Uint64, i: nat, j: nat)
    ensures Next(Next(counter, i), j) == Next(counter, i + j) && Next(counter, 0) == counter
  {
  }

  lemma {:induction false} ConcatAppends(a: seq<Bytes>, b: seq<Bytes>)
    ensures Concat(a + b) == Concat(a) + Concat(b)
  {
    if a == [] {
      assert a + b == b;
    } else {
      ConcatAppends(a[1..], b);
      Regroup(a, b);
      assert a[0] + (Concat(a[1..]) + Concat(b)) == (a[0] + Concat(a[1..])) + Concat(b);
    }
  }

  /** All the frames of a conversation, each cut on its own. */
  function CutAll(frames: seq<Bytes>): seq<Bytes> {
    if frames == [] then [] else Cut(frames[0]) + CutAll(frames[1..])
  }

  lemma {:induction false} CutAllFits(frames: seq<Bytes>)
    ensures Concat(CutAll(frames)) == Concat(frames)
    ensures forall i :: 0 <= i < |CutAll(frames)| ==> 0 < |CutAll(frames)[i]| <= ENCRYPTED_BLOCK_MAX
  {
    if frames != [] {
      CutFits(frames[0]);
      CutAllFits(frames[1..]);
      ConcatAppends(Cut(frames[0]), CutAll(frames[1..]));
    }
  }

  /** A peer with the same key and the same counter reads back everything that was framed, in order,
      and ends with the writer's counter. */
  lemma {:induction false} FramesReadBack(c: Aead, key: Bytes, counter: Uint64, frames: seq<Bytes>, tail: Bytes)
    requires c.Sound()
    ensures var blocks := CutAll(frames);
      ReadMany(c, key, counter, Wire(c, key, counter, blocks) + tail, |blocks|)
        == Some((Concat(frames), tail, Next(counter, |blocks|)))
  {
    CutAllFits(frames);
    BlocksReadBack(c, key, counter, CutAll(frames), tail);
  }

  lemma {:induction false} LittleEndianIsInjective(a: nat, b: nat, len: nat)
    requires LittleEndian(a, len) == LittleEndian(b, len) && a < Range(len) && b < Range(len)
    ensures a == b
  {
    if len > 0 {
      assert LittleEndian(a, len)[0] == LittleEndian(b, len)[0];
      assert LittleEndian(a, len)[1..] == LittleEndian(b, len)[1..];
      LittleEndianIsInjective(a / 256, b / 256, len - 1);
    }
  }

  /** One more than the largest number of `len` bytes. */
  function Range(len: nat): nat {
    if len == 0 then 1 else 256 * Range(len - 1)
  }

  /** The nonces of fewer than 2^64 blocks in a row are all different. */
  lemma NoncesAreDistinct(counter: Uint64, i: nat, j: nat)
    requires i < j < i + 0x1_0000_0000_0000_0000
    ensures Nonce(Next(counter, i)) != Nonce(Next(counter, j))
  {
    var a, b := Next(counter, i), Next(counter, j);
    if Nonce(a) == Nonce(b) {
      assert Nonce(a)[4..] == LittleEndian(a, 8) && Nonce(b)[4..] == LittleEndian(b, 8);
      assert Range(8) == 0x1_0000_0000_0000_0000 by {
        assert Range(4) == 0x1_0000_0000;
      }
      LittleEndianIsInjective(a, b, 8);
    }
  }

  // ---------- nonces over a whole session ----------

  /** A box that was made: under which counter, for which message, and whether it went out whole. */
  datatype Seal = Seal(counter: Uint64, message: Bytes, sent: bool)

  function SentCount(seals: seq<Seal>): nat {
    if seals == [] then 0 else SentCount(seals[..|seals| - 1]) + if seals[|seals| - 1].sent then 1 else 0
  }

  /** The counter starts at zero and has moved once for every box that went out whole. */
  ghost predicate Counted(seals: seq<Seal>, counter: Uint64) {
    && counter == Next(0, SentCount(seals))
    && forall i :: 0 <= i < |seals| ==> seals[i].counter == Next(0, SentCount(seals[..i]))
  }

  /** The boxes of blocks that all went out. */
  function AllSent(counter: Uint64, blocks: seq<Bytes>): (s: seq<Seal>)
    ensures |s| == |blocks|
  {
    seq(|blocks|, i requires 0 <= i < |blocks| => Seal(Next(counter, i), blocks[i], true))
  }

  lemma OneMoreSeal(seals: seq<Seal>, counter: Uint64, message: Bytes, sent: bool)
    requires Counted(seals, counter)
    ensures Counted(seals + [Seal(counter, message, sent)], if sent then Next(counter, 1) else counter)
  {
    hide Next;
    var more := seals + [Seal(counter, message, sent)];
    assert more[..|seals|] == seals;
    NextAdds(0, SentCount(seals), 1);
    forall i | 0 <= i < |seals| ensures more[i].counter == Next(0, SentCount(more[..i])) {
      assert more[..i] == seals[..i];
    }
  }

  lemma {:induction false} SentBetween(seals: seq<Seal>, i: nat, j: nat)
    requires i <= j <= |seals|
    ensures 0 <= SentCount(seals[..j]) - SentCount(seals[..i]) <= j - i
    ensures SentCount(seals[..j]) == SentCount(seals[..i]) <==> forall k :: i <= k < j ==> !seals[k].sent
    decreases j
  {
    if i < j {
      SentBetween(seals, i, j - 1);
      assert seals[..j][..j - 1] == seals[..j - 1];
    }
  }

  /** Two boxes of a session share a nonce exactly when nothing from the first up to the second went out
      whole: the second is then another try after a failed write, of whatever data it was given. */
  lemma {:induction false} NonceSharedExactly(seals: seq<Seal>, counter: Uint64, i: nat, j: nat)
    requires Counted(seals, counter) && i < j < |seals| <= 0x1_0000_0000_0000_0000
    ensures Nonce(seals[i].counter) == Nonce(seals[j].counter) <==> forall k :: i <= k < j ==> !seals[k].sent
  {
    hide Next, Nonce;
    var a, b := SentCount(seals[..i]), SentCount(seals[..j]);
    SentBetween(seals, i, j);
    if a < b {
      NoncesAreDistinct(0, a, b);
    }
  }
}
