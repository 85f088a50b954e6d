/** A client of its own, written down from RFC 5054 (sections 2.5.3 and 2.6) and RFC 2945 (section 3)
    byte by byte, and what the server makes of it. */
module SrpClient {
  import opened BigEndian
  import opened MachineIntegers
  import opened ModularPower
  import opened Srp
  import opened SrpGroup

  type Bytes = seq<Byte>

  /** The bytes are those of `padded` without its leading zeros; the last byte stays. */
  ghost predicate Shortest(bytes: Bytes, padded: Bytes) {
    && 1 <= |bytes| <= |padded| && (bytes[0] != 0 || |bytes| == 1)
    && padded == Zeros(|padded| - |bytes|) + bytes
  }

  /** What a client of user "Pair-Setup" with password "3939" holds: the salt, its secret a, the numbers A
      and B as byte strings without leading zeros, and in the same form the premaster secret. */
  datatype Client = Client(salt: Bytes, a: nat, bigA: Bytes, bigB: Bytes, premaster: Bytes) {
    function User(): Bytes { [0x50, 0x61, 0x69, 0x72, 0x2d, 0x53, 0x65, 0x74, 0x75, 0x70] }

    /** User, colon, password. */
    function Credentials(): Bytes { User() + [0x3a] + [0x33, 0x39, 0x33, 0x39] }

    /** A number in as many bytes as the prime. */
    function Pad(bytes: Bytes): Bytes
      requires |bytes| <= 384
    {
      Zeros(384 - |bytes|) + bytes
    }

    function Multiplier(h: Hash, grp: Group): nat
      requires grp.Valid()
    {
      FromBytes(h(grp.prime + Pad([grp.generator]))) % Modulus(grp)
    }

    function Modulus(grp: Group): (n: nat)
      requires grp.Valid()
      ensures n > 1
    {
      ModulusFits(grp);
      FromBytes(grp.prime)
    }

    function PrivateKey(h: Hash): nat { FromBytes(h(salt + h(Credentials()))) }

    function Scramble(h: Hash): nat
      requires |bigA| <= 384 && |bigB| <= 384
    {
      FromBytes(h(Pad(bigA) + Pad(bigB)))
    }

    /** (B - k g^x)^(a + u x) */
    function Secret(h: Hash, grp: Group): nat
      requires grp.Valid() && |bigA| <= 384 && |bigB| <= 384
    {
      var g: nat := grp.generator as int;
      var x, u, n := PrivateKey(h), Scramble(h), Modulus(grp);
      assert u * x >= 0;
      Pow(FromBytes(bigB) - Multiplier(h, grp) * (Pow(g, x) % n), a + u * x) % n
    }

    function Key(h: Hash): Bytes { h(premaster) }

    /** The client's proof, with `mixed` for H(N) xor H(g) and `s` for the salt. */
    function M1(h: Hash, mixed: Bytes, s: Bytes): Bytes {
      h(mixed + h(User()) + s + bigA + bigB + Key(h))
    }

    /** The answer the client waits for. */
    function M2(h: Hash, m1: Bytes): Bytes { h(bigA + m1 + Key(h)) }

    /** A is g^a, not zero modulo N; the byte strings are in their shortest form. */
    ghost predicate Honest(h: Hash, grp: Group)
      requires grp.Valid()
    {
      && |salt| == 16 && 1 <= |bigA| <= 384 && bigA[0] != 0
      && 1 <= |bigB| <= 384 && (bigB[0] != 0 || |bigB| == 1)
      && FromBytes(bigA) % Modulus(grp) == Pow(grp.generator as int, a) % Modulus(grp) != 0
      && premaster != [] && (premaster[0] != 0 || |premaster| == 1)
      && FromBytes(premaster) == Secret(h, grp)
    }
  }

  /** Byte by byte the exclusive or of the hashes of the prime and the generator. */
  ghost predicate Mixes(mixed: Bytes, h: Hash, grp: Group)
    requires IsHash(h)
  {
    |mixed| == 64 && forall i :: 0 <= i < 64 ==>
      mixed[i] == ((h(grp.prime)[i] as bv8) ^ (h([grp.generator])[i] as bv8)) as int
  }

  lemma MixesIsXor(mixed: Bytes, h: Hash, grp: Group)
    requires IsHash(h) && Mixes(mixed, h, grp)
    ensures mixed == Xor(h(grp.prime), h([grp.generator]))
  {
  }

  /** A byte string without leading zeros is the shortest form of its number. */
  lemma ShortIsMin(bytes: Bytes)
    requires bytes != [] && (bytes[0] != 0 || |bytes| == 1)
    ensures MinBytes(FromBytes(bytes)) == bytes
  {
    TrimIsShortest(bytes);
  }

  lemma ShortestIsTrimmed(bytes: Bytes, padded: Bytes)
    requires Shortest(bytes, padded)
    ensures Trim(padded) == bytes
  {
    TrimIsShortest(padded);
    PaddingKeepsValue(|padded| - |bytes|, bytes);
    ShortIsMin(bytes);
  }

  /** The server's own names for the client's numbers. */
  lemma SameNumbers(h: Hash, grp: Group, c: Client)
    requires grp.Valid() && |c.bigA| <= 384 && |c.bigB| <= 384
    ensures c.Multiplier(h, grp) == Multiplier(h, grp) && c.Modulus(grp) == grp.Modulus()
    ensures c.PrivateKey(h) == PrivateKey(h, c.salt, Username(), Password())
    ensures c.User() == Username()
    ensures c.Scramble(h) == Scramble(h, c.Pad(c.bigA), c.Pad(c.bigB))
  {
    hide Zeros, FromBytes;
    assert c.User() == Username();
    assert c.Credentials() == Username() + Ascii(":") + Password();
    assert grp.prime + c.Pad([grp.generator]) == grp.prime + Zeros(PRIME_BYTES - 1) + [grp.generator];
  }

  /** The client's premaster secret, by its own formula, is what the server's formula for a client gives. */
  lemma SameKey(h: Hash, grp: Group, c: Client)
    requires grp.Valid() && c.Honest(h, grp)
    ensures ClientKey(h, grp, c.salt, c.a, c.Pad(c.bigB), c.Pad(c.bigA)) == c.Key(h)
  {
    hide Zeros, FromBytes, Pow, Multiplier, PrivateKey, Scramble, Client.Multiplier, Client.PrivateKey,
         Client.Scramble, MinBytes, Username, Password;
    SameNumbers(h, grp, c);
    PaddingKeepsValue(384 - |c.bigB|, c.bigB);
    ShortIsMin(c.premaster);
    ModulusFits(grp);
    var g: nat := grp.generator as int;
    assert ClientSecret(FromBytes(c.Pad(c.bigB)), g, c.Multiplier(h, grp), c.PrivateKey(h), c.a, c.Scramble(h),
                        grp.Modulus()) == c.Secret(h, grp);
  }

  /** The server's proof is the client's, if the client hashes the salt in its shortest form. */
  lemma SameProof(h: Hash, grp: Group, c: Client, mixed: Bytes, s: Bytes)
    requires grp.Valid() && IsHash(h) && c.Honest(h, grp) && Mixes(mixed, h, grp) && Shortest(s, c.salt)
    ensures Proof(h, grp, c.salt, FromBytes(c.bigA), FromBytes(c.bigB), c.Key(h)) == c.M1(h, mixed, s)
    ensures forall m1 :: Answer(h, FromBytes(c.bigA), m1, c.Key(h)) == c.M2(h, m1)
  {
    hide Zeros, FromBytes, MinBytes, Trim, Xor, Username, Mixes, Client.Key;
    MixesIsXor(mixed, h, grp);
    SameNumbers(h, grp, c);
    ShortIsMin(c.bigA);
    ShortIsMin(c.bigB);
    ShortestIsTrimmed(s, c.salt);
  }

  /** The server has started with the client's user and password, salt and some random secret, and the
      client holds its B. */
  ghost predicate Started(h: Hash, grp: Group, c: Client, random: Bytes)
    requires grp.Valid() && |c.bigB| <= 384
  {
    c.Pad(c.bigB) ==
      ToBytes(PublicValue(h, grp, c.salt, c.User(), [0x33, 0x39, 0x33, 0x39], SecretValue(grp, random)), 384)
  }

  /** What the server makes of the client's A, sent with any number of zeros in front that still fits, and
      of a proof. */
  function Verdict(h: Hash, grp: Group, c: Client, random: Bytes, lead: nat, proof: Bytes): Outcome
    requires IsHash(h) && grp.Valid() && |c.bigB| <= 384
  {
    Verify(h, grp, c.salt, ToBytes(SecretValue(grp, random), 384), c.Pad(c.bigB), Zeros(lead) + c.bigA, proof)
  }

  lemma SameReceived(c: Client, lead: nat)
    requires lead + |c.bigA| <= 384
    ensures Received(Zeros(lead) + c.bigA) == c.Pad(c.bigA)
    ensures FromBytes(Received(Zeros(lead) + c.bigA)) == FromBytes(c.bigA)
  {
    assert Zeros(384 - lead - |c.bigA|) + (Zeros(lead) + c.bigA) == Zeros(384 - |c.bigA|) + c.bigA;
    PaddingKeepsValue(384 - |c.bigA|, c.bigA);
  }

  /** The server accepts exactly the client's own proof, with the salt in its shortest form, and then both
      hold one key and the client gets the answer it waits for. */
  lemma {:induction false} ServerWantsProof(h: Hash, grp: Group, c: Client, random: Bytes, lead: nat, mixed: Bytes,
                                            s: Bytes, proof: Bytes)
    requires IsHash(h) && grp.Valid() && c.Honest(h, grp) && Started(h, grp, c, random)
    requires lead + |c.bigA| <= 384 && Mixes(mixed, h, grp) && Shortest(s, c.salt) && |proof| == 64
    ensures Verdict(h, grp, c, random, lead, proof) ==
      if proof == c.M1(h, mixed, s) then Accepted(c.Key(h), c.M2(h, proof)) else BadProof(c.Key(h))
  {
    hide Zeros, FromBytes, ToBytes, Proof, Answer, Received, PublicValue, SecretValue, ServerKey, ClientKey, Pow,
         Username, Password, Mixes, Shortest, Client.Key, Client.M1, Client.M2, Client.User, Client.Secret;
    ModulusFits(grp);
    SameNumbers(h, grp, c);
    SameReceived(c, lead);
    assert Password() == [0x33, 0x39, 0x33, 0x39] by { PasswordIs(); }
    assert Represents(grp, Zeros(lead) + c.bigA, c.a) by {
      PaddingKeepsValue(lead, c.bigA);
    }
    KeysAgree(h, grp, c.salt, random, c.a, Zeros(lead) + c.bigA);
    SameKey(h, grp, c);
    SameProof(h, grp, c, mixed, s);
    PaddingKeepsValue(384 - |c.bigB|, c.bigB);
    assert proof[..PROOF_BYTES] == proof;
  }

  lemma PasswordIs()
    ensures Password() == [0x33, 0x39, 0x33, 0x39]
  {
  }

  /** So the client of the standard, which hashes the salt as it was sent, is accepted when the salt does
      not begin with a zero byte; when it does, exactly if the hash does not tell the two apart. */
  lemma {:induction false} StandardClientIsAccepted(h: Hash, grp: Group, c: Client, random: Bytes, lead: nat,
                                                    mixed: Bytes, s: Bytes)
    requires IsHash(h) && grp.Valid() && c.Honest(h, grp) && Started(h, grp, c, random)
    requires lead + |c.bigA| <= 384 && Mixes(mixed, h, grp) && Shortest(s, c.salt)
    ensures var m1 := c.M1(h, mixed, c.salt);
      && (Verdict(h, grp, c, random, lead, m1) == Accepted(c.Key(h), c.M2(h, m1)) <==> m1 == c.M1(h, mixed, s))
      && (c.salt[0] != 0 ==> s == c.salt && Verdict(h, grp, c, random, lead, m1) == Accepted(c.Key(h), c.M2(h, m1)))
  {
    hide Client.Key, Client.M2, Client.Secret, Mixes, Verdict;
    ServerWantsProof(h, grp, c, random, lead, mixed, s, c.M1(h, mixed, c.salt));
    if c.salt[0] != 0 {
      NothingToTrim(s, c.salt);
    }
  }

  lemma NothingToTrim(bytes: Bytes, padded: Bytes)
    requires Shortest(bytes, padded) && padded[0] != 0
    ensures bytes == padded
  {
    assert Zeros(0) + bytes == bytes;
  }
}
