/** Reading and writing encrypted RTSP blocks over a socket that may take or deliver any part of
    what is asked of it. */
module RtspCrypto {
  import opened MachineIntegers
  import opened RtspFrames
  import opened Wrappers

  /** A stream socket. `script` holds, call by call, how much the next send or recv can move; zero or
      less, or an exhausted script, fails the call. */
  class Socket {
    var sent: Bytes       // accepted from this side
    var inbox: Bytes      // still to be delivered to it
    var script: seq<int>
    ghost var failed: bool

    method Room() returns (r: int)
      modifies this`script
      ensures r == (if old(script) == [] then 0 else old(script)[0])
      ensures script == if old(script) == [] then [] else old(script)[1..]
    {
      r := 0;
      if script != [] {
        r := script[0];
        script := script[1..];
      }
    }

    method Send(data: Bytes) returns (r: int)
      requires data != []
      modifies this`script, this`sent, this`failed
      ensures r <= |data|
      ensures sent == old(sent) + if r > 0 then data[..r] else []
      ensures r <= 0 <==> old(script) == [] || old(script)[0] <= 0
      ensures r > 0 ==> r == if old(script)[0] < |data| then old(script)[0] else |data|
      ensures script == if old(script) == [] then [] else old(script)[1..]
      ensures failed == (old(failed) || r <= 0)
    {
      r := Room();
      if r <= 0 {
        failed := true;
        return;
      }
      if r > |data| {
        r := |data|;
      }
      sent := sent + data[..r];
    }

    /** Nothing more to come reads as zero, like a closed connection. */
    method Recv(most: nat) returns (r: int, data: Bytes)
      requires most > 0
      modifies this`script, this`inbox, this`failed
      ensures r <= most && |data| == (if r > 0 then r else 0) && |data| <= |old(inbox)| && data == old(inbox)[..|data|]
      ensures inbox == old(inbox)[|data|..]
      ensures old(inbox) == [] ==> r <= 0
      ensures failed == (old(failed) || (r <= 0 && old(inbox) != []))
    {
      var room := Room();
      if room <= 0 || inbox == [] {
        failed := failed || inbox != [];
        return 0, [];
      }
      r := if room > most then most else room;
      if r > |inbox| {
        r := |inbox|;
      }
      data := inbox[..r];
      inbox := inbox[r..];
    }
  }

  /** How many of `n` bytes a script lets out before a send fails, and what is left of the script. */
  function Moved(script: seq<int>, n: nat): (r: (nat, seq<int>))
    ensures r.0 <= n
    decreases n
  {
    if n == 0 then (0, script)
    else if script == [] then (0, [])
    else if script[0] <= 0 then (0, script[1..])
    else if script[0] >= n then (n, script[1..])
    else
      var (more, rest) := Moved(script[1..], n - script[0]);
      (script[0] + more, rest)
  }

  /** The same for a block of a message of `n` bytes: the header, and the box if the header went out. */
  function BlockMoved(script: seq<int>, n: nat): (r: (nat, seq<int>))
    ensures r.0 <= n + 18
  {
    var (header, rest) := Moved(script, 2);
    if header < 2 then (header, rest)
    else
      var (sealed, last) := Moved(rest, n + TAG_BYTES);
      (2 + sealed, last)
  }

  /** send_all: the whole of the data, or a proper prefix and an error. */
  method SendAll(socket: Socket, data: Bytes) returns (ok: bool)
    modifies socket`script, socket`sent, socket`failed
    ensures ok ==> socket.sent == old(socket.sent) + data && socket.failed == old(socket.failed)
    ensures !ok ==> socket.failed && old(socket.sent) <= socket.sent < old(socket.sent) + data
    ensures ok <==> Moved(old(socket.script), |data|).0 == |data|
    ensures socket.sent == old(socket.sent) + data[..Moved(old(socket.script), |data|).0]
    ensures socket.script == Moved(old(socket.script), |data|).1
  {
    var done := 0;
    ghost var (most, rest) := Moved(socket.script, |data|);
    while done < |data|
      invariant 0 <= done <= |data|
      invariant socket.sent == old(socket.sent) + data[..done] && socket.failed == old(socket.failed)
      invariant (most, rest) == (done + Moved(socket.script, |data| - done).0, Moved(socket.script, |data| - done).1)
    {
      var r := socket.Send(data[done..]);
      if r <= 0 {
        return false;
      }
      assert data[..done + r] == data[..done] + data[done..][..r];
      done := done + r;
    }
    ok := true;
  }

  /** The receive loops: fill the buffer, or take what there was and report an error. */
  method RecvAll(socket: Socket, buf: array<Byte>) returns (ok: bool)
    modifies socket`script, socket`inbox, socket`failed, buf
    ensures ok ==> |old(socket.inbox)| >= buf.Length && buf[..] == old(socket.inbox)[..buf.Length]
    ensures ok ==> socket.inbox == old(socket.inbox)[buf.Length..] && socket.failed == old(socket.failed)
    ensures !ok ==> socket.failed || |old(socket.inbox)| < buf.Length
  {
    ghost var all := socket.inbox;
    var received := 0;
    while received < buf.Length
      invariant 0 <= received <= buf.Length && received <= |all|
      invariant socket.inbox == all[received..] && buf[..received] == all[..received]
      invariant socket.failed == old(socket.failed)
    {
      var r, data := socket.Recv(buf.Length - received);
      if r <= 0 {
        return false;
      }
      forall i | 0 <= i < r {
        buf[received + i] := data[i];
      }
      assert all[received..][r..] == all[received + r..];
      Filled(buf[..received + r], all, received, data);
      received := received + r;
    }
    ok := true;
  }

  lemma Filled(now: Bytes, all: Bytes, received: nat, data: Bytes)
    requires |now| == received + |data| <= |all| && now[..received] == all[..received]
    requires data == all[received..][..|data|] && forall i :: 0 <= i < |data| ==> now[received + i] == data[i]
    ensures now == all[..received + |data|]
  {
    forall k | 0 <= k < |now| ensures now[k] == all[k] {
      if k < received {
        assert now[..received][k] == all[..received][k];
      } else {
        assert now[received + (k - received)] == data[k - received];
      }
    }
  }

  /** The encryption state of a connection. */
  class Session {
    const cipher: Aead
    const encryptKey: Bytes
    const decryptKey: Bytes
    var encryptNonce: Uint64
    var decryptNonce: Uint64
    var encryptedMode: bool
    ghost var seals: seq<Seal>     // every box made since the session began

    constructor (cipher: Aead, encryptKey: Bytes, decryptKey: Bytes)
      ensures this.cipher == cipher && this.encryptKey == encryptKey && this.decryptKey == decryptKey
      ensures encryptNonce == decryptNonce == 0 && !encryptedMode && seals == [] && Valid()
    {
      this.cipher, this.encryptKey, this.decryptKey := cipher, encryptKey, decryptKey;
      encryptNonce, decryptNonce, encryptedMode, seals := 0, 0, false, [];
    }

    /** The counter has moved once for every box that went out whole. */
    ghost predicate Valid()
      reads this`seals, this`encryptNonce
    {
      Counted(seals, encryptNonce)
    }

    /** One block: header, then box. */
    method WriteBlock(socket: Socket, m: Bytes) returns (ok: bool)
      requires cipher.Sound() && 0 < |m| <= ENCRYPTED_BLOCK_MAX
      modifies socket`script, socket`sent, socket`failed, this`encryptNonce, this`seals
      ensures seals == old(seals) + [Seal(old(encryptNonce), m, ok)]
      ensures ok ==> socket.sent == old(socket.sent) + Block(cipher, encryptKey, old(encryptNonce), m)
      ensures ok ==> encryptNonce == Next(old(encryptNonce), 1) && socket.failed == old(socket.failed)
      ensures !ok ==> encryptNonce == old(encryptNonce) && socket.failed
      ensures !ok ==> old(socket.sent) <= socket.sent < old(socket.sent) + Block(cipher, encryptKey, encryptNonce, m)
      ensures OneBlock(old(socket.sent), old(socket.script), socket.sent, socket.script, old(encryptNonce), m, ok)
    {
      var header := Header(|m|);
      var sealed := cipher.seal(encryptKey, Nonce(encryptNonce), header, m);
      ok := SendAll(socket, header);
      if ok {
        ok := SendAll(socket, sealed);
      }
      seals := seals + [Seal(encryptNonce, m, ok)];
      if !ok {
        return;
      }
      assert (old(socket.sent) + header) + sealed == old(socket.sent) + (header + sealed);
      encryptNonce := Next(encryptNonce, 1);
    }

    /** As much of one block went out as the script let through. */
    ghost predicate OneBlock(sent0: Bytes, script0: seq<int>, sent: Bytes, script: seq<int>, n0: Uint64, m: Bytes,
                             ok: bool) {
      && var (count, rest) := BlockMoved(script0, |m|);
         var block := Block(cipher, encryptKey, n0, m);
      && count <= |block|
      && sent == sent0 + block[..count] && script == rest && (ok <==> count == |block|)
    }

    /** rtsp_crypto_write_frame. When it fails, `k` blocks went out whole and were counted; of the
        next one a part may be on the wire, and the counter has not moved past it. */
    method WriteFrame(socket: Socket, data: Bytes) returns (ok: bool)
      requires cipher.Sound() && Valid()
      modifies socket`script, socket`sent, socket`failed, this`encryptNonce, this`seals
      ensures Valid()
      ensures ok ==> seals == old(seals) + AllSent(old(encryptNonce), Cut(data))
      ensures !encryptedMode ==> seals == old(seals)
      ensures ok ==>
        socket.sent == old(socket.sent) + Wire(cipher, encryptKey, old(encryptNonce), Cut(data))
        && encryptNonce == Next(old(encryptNonce), |Cut(data)|)
      ensures !encryptedMode ==> !ok
      ensures !ok ==> !encryptedMode || socket.failed
      ensures !ok ==> exists k: nat :: Stopped(old(socket.sent), socket.sent, old(encryptNonce), Cut(data), k)
                        && encryptNonce == Next(old(encryptNonce), k)
                        && (encryptedMode ==> SealsStopped(old(seals), seals, old(encryptNonce), Cut(data), k))
      ensures encryptedMode && 0 < |data| <= ENCRYPTED_BLOCK_MAX ==>
        OneBlock(old(socket.sent), old(socket.script), socket.sent, socket.script, old(encryptNonce), data, ok)
        && (!ok ==> encryptNonce == old(encryptNonce))
    {
      hide Block, Next, Aead.Sound, Counted, AllSent, OneBlock, Wire, Cut, BlockLength, Written, Stopped, SealsStopped;
      ghost var blocks, sent0, seals0, n0, k := Cut(data), socket.sent, seals, encryptNonce, 0;
      NothingWritten(sent0, seals0, n0, blocks);
      if !encryptedMode {
        return false;
      }
      var offset := 0;
      assert data[0..] == data;
      while offset < |data|
        invariant 0 <= offset <= |data| && 0 <= k <= |blocks| && blocks[k..] == Cut(data[offset..])
        invariant Written(sent0, socket.sent, seals0, seals, n0, encryptNonce, blocks, k)
        invariant socket.failed == old(socket.failed) && Valid()
        invariant offset == 0 ==>
          socket.script == old(socket.script) && socket.sent == sent0 && encryptNonce == n0
        invariant 0 < offset && |data| <= ENCRYPTED_BLOCK_MAX ==>
          offset == |data| && OneBlock(sent0, old(socket.script), socket.sent, socket.script, n0, data, true)
        decreases |data| - offset
      {
        var len := BlockLength(|data| - offset);
        var m := data[offset..][..len];
        assert data[offset..][len..] == data[offset + len..];
        if offset == 0 && |data| <= ENCRYPTED_BLOCK_MAX {
          WholeBlock(data);
        }
        CutStep(blocks, k, data[offset..]);
        ghost var sent1, seals1, n1 := socket.sent, seals, encryptNonce;
        ok := WriteBlock(socket, m);
        OneMoreSeal(seals1, n1, m, ok);
        if !ok {
          WritingStops(sent0, sent1, socket.sent, seals0, seals1, seals, n0, n1, blocks, k);
          return;
        }
        WritingGoesOn(sent0, sent1, socket.sent, seals0, seals1, seals, n0, n1, blocks, k);
        k, offset := k + 1, offset + len;
      }
      CutNothing(data[offset..], blocks[k..]);
      WrittenAll(sent0, socket.sent, seals0, seals, n0, encryptNonce, blocks, k);
      ok := true;
    }

    /** `k` blocks have gone out whole and were counted. */
    ghost predicate Written(sent0: Bytes, sent: Bytes, seals0: seq<Seal>, seals: seq<Seal>, n0: Uint64, n: Uint64,
                            blocks: seq<Bytes>, k: nat) {
      && k <= |blocks| && n == Next(n0, k)
      && sent == sent0 + Wire(cipher, encryptKey, n0, blocks[..k])
      && seals == seals0 + AllSent(n0, blocks[..k])
    }

    lemma NothingWritten(sent0: Bytes, seals0: seq<Seal>, n0: Uint64, blocks: seq<Bytes>)
      ensures Written(sent0, sent0, seals0, seals0, n0, n0, blocks, 0)
      ensures Stopped(sent0, sent0, n0, blocks, 0) && n0 == Next(n0, 0)
    {
      hide Block;
      NextAdds(n0, 0, 0);
      assert blocks[..0] == [] && sent0 + [] == sent0 && seals0 + [] == seals0;
    }

    lemma WritingGoesOn(sent0: Bytes, sent1: Bytes, sent: Bytes, seals0: seq<Seal>, seals1: seq<Seal>,
                        seals: seq<Seal>, n0: Uint64, n1: Uint64, blocks: seq<Bytes>, k: nat)
      requires Written(sent0, sent1, seals0, seals1, n0, n1, blocks, k) && k < |blocks|
      requires sent == sent1 + Block(cipher, encryptKey, n1, blocks[k]) && seals == seals1 + [Seal(n1, blocks[k], true)]
      ensures Written(sent0, sent, seals0, seals, n0, Next(n1, 1), blocks, k + 1)
    {
      hide Block, Next, AllSent, Wire;
      OneMoreSent(seals0, n0, blocks, k);
      StepWires(sent0, n0, blocks, k);
    }

    lemma WritingStops(sent0: Bytes, sent1: Bytes, sent: Bytes, seals0: seq<Seal>, seals1: seq<Seal>,
                       seals: seq<Seal>, n0: Uint64, n1: Uint64, blocks: seq<Bytes>, k: nat)
      requires Written(sent0, sent1, seals0, seals1, n0, n1, blocks, k) && k < |blocks|
      requires sent1 <= sent < sent1 + Block(cipher, encryptKey, n1, blocks[k])
      requires seals == seals1 + [Seal(n1, blocks[k], false)]
      ensures Stopped(sent0, sent, n0, blocks, k) && SealsStopped(seals0, seals, n0, blocks, k) && n1 == Next(n0, k)
    {
      hide Block, Next, AllSent, Wire;
    }

    lemma WrittenAll(sent0: Bytes, sent: Bytes, seals0: seq<Seal>, seals: seq<Seal>, n0: Uint64, n: Uint64,
                     blocks: seq<Bytes>, k: nat)
      requires Written(sent0, sent, seals0, seals, n0, n, blocks, k) && k == |blocks|
      ensures sent == sent0 + Wire(cipher, encryptKey, n0, blocks) && seals == seals0 + AllSent(n0, blocks)
      ensures n == Next(n0, |blocks|)
    {
      hide Next, AllSent, Wire;
      assert blocks[..k] == blocks;
    }

    lemma CutNothing(rest: Bytes, blocks: seq<Bytes>)
      requires rest == [] && blocks == Cut(rest)
      ensures blocks == []
    {
    }

    lemma WholeBlock(data: Bytes)
      requires 0 < |data| <= ENCRYPTED_BLOCK_MAX
      ensures BlockLength(|data|) == |data| && data[..|data|] == data
    {
    }

    /** The boxes of `k` whole blocks, and one that was made but did not go out. */
    ghost predicate SealsStopped(before: seq<Seal>, now: seq<Seal>, n0: Uint64, blocks: seq<Bytes>, k: nat) {
      k < |blocks| && now == (before + AllSent(n0, blocks[..k])) + [Seal(Next(n0, k), blocks[k], false)]
    }

    lemma OneMoreSent(before: seq<Seal>, n0: Uint64, blocks: seq<Bytes>, k: nat)
      requires k < |blocks|
      ensures before + AllSent(n0, blocks[..k + 1])
           == (before + AllSent(n0, blocks[..k])) + [Seal(Next(n0, k), blocks[k], true)]
    {
      hide Next;
      assert AllSent(n0, blocks[..k + 1]) == AllSent(n0, blocks[..k]) + [Seal(Next(n0, k), blocks[k], true)];
    }

    /** `k` whole blocks and a proper part of the next, or nothing at all. */
    ghost predicate Stopped(before: Bytes, now: Bytes, n0: Uint64, blocks: seq<Bytes>, k: nat) {
      && k <= |blocks|
      && var whole := before + Wire(cipher, encryptKey, n0, blocks[..k]);
         whole <= now && if k == |blocks| then now == whole
                         else now < whole + Block(cipher, encryptKey, Next(n0, k), blocks[k])
    }

    lemma StepWires(sent0: Bytes, n0: Uint64, blocks: seq<Bytes>, k: nat)
      requires k < |blocks|
      ensures (sent0 + Wire(cipher, encryptKey, n0, blocks[..k])) + Block(cipher, encryptKey, Next(n0, k), blocks[k])
           == sent0 + Wire(cipher, encryptKey, n0, blocks[..k + 1])
      ensures Next(Next(n0, k), 1) == Next(n0, k + 1)
    {
      var block := Block(cipher, encryptKey, Next(n0, k), blocks[k]);
      hide Block, Next;
      NextAdds(n0, k, 1);
      WireAppends(cipher, encryptKey, n0, blocks[..k], [blocks[k]]);
      assert blocks[..k + 1] == blocks[..k] + [blocks[k]];
      assert Wire(cipher, encryptKey, Next(n0, k), [blocks[k]]) == block + [];
      var wire := Wire(cipher, encryptKey, n0, blocks[..k]);
      assert (sent0 + wire) + block == sent0 + (wire + block);
    }

    lemma CutStep(blocks: seq<Bytes>, k: nat, rest: Bytes)
      requires k <= |blocks| && blocks[k..] == Cut(rest) && rest != []
      ensures k < |blocks| && blocks[k] == rest[..BlockLength(|rest|)]
      ensures blocks[k + 1..] == Cut(rest[BlockLength(|rest|)..])
    {
      assert blocks[k + 1..] == blocks[k..][1..];
      assert blocks[k] == blocks[k..][0];
    }

    /** rtsp_crypto_read_block: the length read, or -1. A block is delivered exactly when one is there
        to be read, unless the socket fails first. */
    method ReadBlock(socket: Socket, buffer: array<Byte>) returns (len: int)
      requires cipher.Sound()
      modifies socket`script, socket`inbox, socket`failed, buffer, this`decryptNonce
      ensures -1 <= len <= buffer.Length
      ensures !encryptedMode ==> len == -1
      ensures len >= 0 ==>
        ReadOne(cipher, decryptKey, old(decryptNonce), old(socket.inbox), buffer.Length)
          == Some((buffer[..len], socket.inbox))
        && decryptNonce == Next(old(decryptNonce), 1)
      ensures len < 0 ==> decryptNonce == old(decryptNonce)
      ensures len < 0 ==> forall i :: 0 <= i < buffer.Length ==> buffer[i] == old(buffer[i]) || buffer[i] == 0
      ensures len < 0 && encryptedMode && !socket.failed ==>
        ReadOne(cipher, decryptKey, old(decryptNonce), old(socket.inbox), buffer.Length) == None
    {
      if !encryptedMode {
        return -1;
      }
      ghost var all := socket.inbox;
      var header := new Byte[2];
      var ok := RecvAll(socket, header);
      if !ok {
        return -1;
      }
      var blockLen := Announced(header[..]);
      if blockLen == 0 || blockLen > ENCRYPTED_BLOCK_MAX || blockLen > buffer.Length {
        return -1;
      }
      var box := new Byte[blockLen + TAG_BYTES];
      ok := RecvAll(socket, box);
      Slices(all, blockLen + TAG_BYTES);
      if !ok {
        return -1;
      }
      var plain := cipher.open(decryptKey, Nonce(decryptNonce), header[..], box[..]);
      if plain.None? {
        // The library clears the room of a message it cannot open.
        forall i | 0 <= i < blockLen {
          buffer[i] := 0;
        }
        return -1;
      }
      forall i | 0 <= i < |plain.value| {
        buffer[i] := plain.value[i];
      }
      decryptNonce := Next(decryptNonce, 1);
      len := |plain.value|;
      assert buffer[..len] == plain.value;
    }

    lemma Slices(all: Bytes, n: nat)
      ensures |all| >= 2 + n ==> all[2..][..n] == all[2..2 + n] && all[2..][n..] == all[2 + n..]
    {
    }
  }

  /** A script that stops one byte short of the first block and lets the second out. */
  function OneByteShort(first: nat, second: nat): seq<int> {
    [2, first + 15, 0] + [2, second + 16]
  }

  lemma OneByteShortMoves(first: nat, second: nat)
    requires first > 0 && second > 0
    ensures BlockMoved(OneByteShort(first, second), first) == (first + 17, [2, second + 16])
    ensures BlockMoved([2, second + 16], second) == (second + 18, [])
  {
    var s := OneByteShort(first, second);
    assert s[1..][0] == first + 15 && s[1..][1..] == [0] + [2, second + 16];
    assert Moved([0] + [2, second + 16], 1) == (0, [2, second + 16]);
    assert [2, second + 16][1..] == [second + 16] && [second + 16][1..] == [];
  }

  lemma BlockPrefix(cipher: Aead, key: Bytes, counter: Uint64, m: Bytes, n: nat)
    requires cipher.Sound() && n <= |m| + TAG_BYTES
    ensures |Block(cipher, key, counter, m)| == |m| + 18
    ensures Block(cipher, key, counter, m) == Header(|m|) + cipher.seal(key, Nonce(counter), Header(|m|), m)
    ensures Block(cipher, key, counter, m)[..2 + n]
         == Header(|m|) + cipher.seal(key, Nonce(counter), Header(|m|), m)[..n]
  {
    hide Header, Nonce;
  }

  /** Written again after a failure, other data goes out under the same nonce: all but the last byte of
      a box, and then a whole one. */
  method TwoBoxesOneNonce(cipher: Aead, key: Bytes, first: Bytes, second: Bytes)
    returns (failed: bool, done: bool, sent: Bytes)
    requires cipher.Sound() && 0 < |first| <= ENCRYPTED_BLOCK_MAX && 0 < |second| <= ENCRYPTED_BLOCK_MAX
    ensures failed && done
    ensures sent == Header(|first|) + cipher.seal(key, Nonce(0), Header(|first|), first)[..|first| + 15]
                  + (Header(|second|) + cipher.seal(key, Nonce(0), Header(|second|), second))
  {
    hide Nonce, Header, Block, BlockMoved, Cut, Wire, Next, Counted, AllSent, Aead.Sound, OneByteShort;
    hide Session.Stopped, Session.SealsStopped;
    var session := new Session(cipher, key, []);
    session.encryptedMode := true;
    var socket := new Socket;
    socket.sent, socket.script := [], OneByteShort(|first|, |second|);
    OneByteShortMoves(|first|, |second|);
    BlockPrefix(cipher, key, 0, first, |first| + 15);
    BlockPrefix(cipher, key, 0, second, |second| + 16);
    var ok1 := session.WriteFrame(socket, first);
    ghost var sent1, block := socket.sent, Block(cipher, key, 0, second);
    assert sent1 == Block(cipher, key, 0, first)[..2 + (|first| + 15)];
    var ok2 := session.WriteFrame(socket, second);
    assert socket.sent == sent1 + block && block[..|block|] == block;
    failed, done, sent := !ok1, ok2, socket.sent;
  }
}
