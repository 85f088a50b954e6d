/** The server's session record, filled step by step. */
module SrpSession {
  import opened BigEndian
  import opened MachineIntegers
  import opened ModularPower
  import opened Srp
  import opened SrpGroup

  class Session {
    const group: Group
    var salt: seq<Byte>
    const serverPublicKey: array<Byte>
    const serverSecret: array<Byte>
    const clientPublicKey: array<Byte>
    var sessionKey: seq<Byte>
    var proofM1: seq<Byte>
    var proofM2: seq<Byte>
    var state: nat
    var verified: bool

    ghost predicate Valid() {
      && group.Valid()
      && serverPublicKey.Length == serverSecret.Length == clientPublicKey.Length == PRIME_BYTES
      && serverPublicKey != serverSecret && serverPublicKey != clientPublicKey && serverSecret != clientPublicKey
    }

    /** srp_session_create: calloc. */
    constructor ()
      ensures Valid() && fresh(serverPublicKey) && fresh(serverSecret) && fresh(clientPublicKey)
      ensures group == Group3072() && state == 0 && !verified
    {
      group := Group3072();
      salt, sessionKey, proofM1, proofM2 := Zeros(SALT_BYTES), Zeros(64), Zeros(64), Zeros(64);
      serverPublicKey := new Byte[PRIME_BYTES](_ => 0);
      serverSecret := new Byte[PRIME_BYTES](_ => 0);
      clientPublicKey := new Byte[PRIME_BYTES](_ => 0);
      state, verified := 0, false;
    }

    /** srp_start, with its random bytes as arguments. */
    method Start(h: Hash, username: seq<Byte>, password: seq<Byte>, randomSalt: seq<Byte>, randomSecret: seq<Byte>)
      requires Valid() && |randomSalt| == SALT_BYTES && |randomSecret| == PRIME_BYTES
      modifies this`salt, this`state, serverSecret, serverPublicKey
      ensures salt == randomSalt && state == 1
      ensures serverSecret[..] == ToBytes(SecretValue(group, randomSecret), PRIME_BYTES)
      ensures serverPublicKey[..] ==
        ToBytes(PublicValue(h, group, randomSalt, username, password, SecretValue(group, randomSecret)), PRIME_BYTES)
    {
      hide Group.Modulus, Group3072, Multiplier, PrivateKey, PowMod, Pow, Username, Password, Zeros, Ascii,
           ToBytes, Size;
      ModulusFits(group);
      salt := randomSalt;
      var n := group.Modulus();
      var k := Multiplier(h, group);
      var x := PrivateKey(h, salt, username, password);
      var v := PowMod(group.generator, x, n);
      var b := FromBytes(randomSecret) % n;
      StoredReadsBack(group, b);
      var _ := WritePadded(b, serverSecret);
      var big := (k * v + PowMod(group.generator, b, n)) % n;
      StoredReadsBack(group, big);
      var _ := WritePadded(big, serverPublicKey);
      state := 1;
    }

    /** The padded copy of the client's key. */
    method StoreClientKey(clientKey: seq<Byte>)
      requires Valid()
      modifies clientPublicKey
      ensures clientPublicKey[..] == Received(clientKey)
    {
      var len := if |clientKey| > PRIME_BYTES then PRIME_BYTES else |clientKey|;
      forall i | 0 <= i < PRIME_BYTES {
        clientPublicKey[i] := 0;
      }
      forall i | 0 <= i < len {
        clientPublicKey[PRIME_BYTES - len + i] := clientKey[i];
      }
      forall i | PRIME_BYTES - len <= i < PRIME_BYTES ensures clientPublicKey[i] == Received(clientKey)[i] {
        assert clientPublicKey[PRIME_BYTES - len + (i - (PRIME_BYTES - len))] == clientKey[i - (PRIME_BYTES - len)];
      }
    }

    /** The shortest bytes of a number of at most 384 bytes, in a buffer of that size. */
    method Shortest(n: nat) returns (bytes: seq<Byte>)
      requires Size(n) <= PRIME_BYTES
      ensures bytes == MinBytes(n)
    {
      var buf := new Byte[PRIME_BYTES];
      var len := WriteShortest(n, buf);
      bytes := buf[..len];
    }

    /** The XOR loop over the two digests. */
    method XorDigests(a: seq<Byte>, b: seq<Byte>) returns (r: seq<Byte>)
      requires |a| == |b| == 64
      ensures r == Xor(a, b)
    {
      var out := new Byte[64];
      for i := 0 to 64
        invariant out[..i] == Xor(a, b)[..i]
      {
        out[i] := XorByte(a[i], b[i]);
      }
      r := out[..];
    }

    /** The proof the server expects. */
    method ExpectedProof(h: Hash, a: nat, b: nat) returns (m1: seq<Byte>)
      requires IsHash(h) && |salt| == SALT_BYTES && Size(a) <= PRIME_BYTES && Size(b) <= PRIME_BYTES
      ensures m1 == Proof(h, group, salt, a, b, sessionKey)
    {
      hide Group3072, Username, Xor, Trim, MinBytes, Size;
      var mixed := XorDigests(h(group.prime), h([group.generator]));
      var at, len := TrimLeadingZeros(salt);
      var aBytes := Shortest(a);
      var bBytes := Shortest(b);
      assert salt[at..at + len] == Trim(salt);
      m1 := h(mixed + h(Username()) + salt[at..at + len] + aBytes + bBytes + sessionKey);
    }

    /** (A v^u)^b, hashed. */
    method DeriveKey(h: Hash)
      requires Valid()
      modifies this`sessionKey
      ensures sessionKey == ServerKey(h, group, salt, serverSecret[..], serverPublicKey[..], clientPublicKey[..])
    {
      hide Group.Modulus, Group3072, Multiplier, PrivateKey, PowMod, Pow, Scramble, Username, Password, ToBytes, Size;
      ModulusFits(group);
      var n := group.Modulus();
      var u := Scramble(h, clientPublicKey[..], serverPublicKey[..]);
      var x := PrivateKey(h, salt, Username(), Password());
      var v := PowMod(group.generator, x, n);
      var base := (FromBytes(clientPublicKey[..]) * PowMod(v, u, n)) % n;
      var s := PowMod(base, FromBytes(serverSecret[..]), n);
      SizeFits(s, PRIME_BYTES);
      StoredReadsBack(group, s);
      var bytes := Shortest(s);
      sessionKey := h(bytes);
    }

    /** srp_verify_client */
    method VerifyClient(h: Hash, clientKey: seq<Byte>, proof: seq<Byte>) returns (ok: bool)
      requires Valid() && IsHash(h) && |salt| == SALT_BYTES
      modifies this`sessionKey, this`proofM1, this`proofM2, this`state, this`verified, clientPublicKey
      ensures var r := Verify(h, group, salt, serverSecret[..], serverPublicKey[..], clientKey, proof);
        && ok == r.Accepted?
        && clientPublicKey[..] == (if r.Malformed? then old(clientPublicKey[..]) else Received(clientKey))
        && sessionKey == (if r.Malformed? || r.BadKey? then old(sessionKey) else r.key)
        && proofM1 == (if ok then proof[..PROOF_BYTES] else old(proofM1))
        && proofM2 == (if ok then r.answer else old(proofM2))
        && verified == (ok || old(verified)) && state == (if ok then 2 else old(state))
    {
      hide Group.Modulus, Group3072, ServerKey, Proof, Answer, Received, ToBytes, Pow, Size, FromBytes,
           Zeros, MinBytes, Trim;
      ModulusFits(group);
      if |proof| < PROOF_BYTES {
        return false;
      }
      StoreClientKey(clientKey);
      var a, b := FromBytes(clientPublicKey[..]), FromBytes(serverPublicKey[..]);
      if a % group.Modulus() == 0 {
        return false;
      }
      DeriveKey(h);
      ReadingKeepsBytes(clientPublicKey[..]);
      ReadingKeepsBytes(serverPublicKey[..]);
      SizeFits(a, PRIME_BYTES);
      SizeFits(b, PRIME_BYTES);
      var expected := ExpectedProof(h, a, b);
      if proof[..PROOF_BYTES] != expected {
        return false;
      }
      proofM1 := proof[..PROOF_BYTES];
      proofM2 := HashAnswer(h, a);
      verified, state, ok := true, 2, true;
    }

    /** The server's own proof. */
    method HashAnswer(h: Hash, a: nat) returns (m2: seq<Byte>)
      requires Size(a) <= PRIME_BYTES
      ensures m2 == Answer(h, a, proofM1, sessionKey)
    {
      var aBytes := Shortest(a);
      m2 := h(aBytes + proofM1 + sessionKey);
    }
  }
}
