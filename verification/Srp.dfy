/** The SRP-6a server of pair-setup (RFC 5054, sections 2.5.3, 2.5.4 and 2.6; the proofs are those
    of RFC 2945, section 3), over any hash with 64-byte digests and any group of 384 bytes. */
module Srp {
  import opened BigEndian
  import opened MachineIntegers
  import opened ModularPower
  import opened SrpGroup

  const SALT_BYTES := 16
  const PRIME_BYTES := 384
  const PROOF_BYTES := 64

  type Hash = seq<Byte> -> seq<Byte>

  ghost predicate IsHash(h: Hash) {
    forall m :: |h(m)| == 64
  }

  function Ascii(s: string): (r: seq<Byte>)
    ensures |r| == |s|
  {
    seq(|s|, i requires 0 <= i < |s| => s[i] as int % 256)
  }

  function Username(): seq<Byte> {
    Ascii("Pair-Setup")
  }

  function Password(): seq<Byte> {
    Ascii("3939")
  }

  function Xor(a: seq<Byte>, b: seq<Byte>): seq<Byte>
    requires |a| == |b|
  {
    seq(|a|, i requires 0 <= i < |a| => XorByte(a[i], b[i]))
  }

  // What both sides derive from public values.

  /** k */
  function Multiplier(h: Hash, grp: Group): nat
    requires grp.Valid()
  {
    ModulusFits(grp);
    FromBytes(h(grp.prime + Zeros(PRIME_BYTES - 1) + [grp.generator])) % grp.Modulus()
  }

  /** x */
  function PrivateKey(h: Hash, salt: seq<Byte>, username: seq<Byte>, password: seq<Byte>): nat {
    FromBytes(h(salt + h(username + Ascii(":") + password)))
  }

  /** v */
  function Verifier(h: Hash, grp: Group, salt: seq<Byte>, username: seq<Byte>, password: seq<Byte>): nat
    requires grp.Valid()
  {
    ModulusFits(grp);
    PowMod(grp.generator, PrivateKey(h, salt, username, password), grp.Modulus())
  }

  /** u */
  function Scramble(h: Hash, padA: seq<Byte>, padB: seq<Byte>): nat {
    FromBytes(h(padA + padB))
  }

  /** K */
  function KeyOf(h: Hash, secret: nat): seq<Byte> {
    h(MinBytes(secret))
  }

  /** M1 */
  function Proof(h: Hash, grp: Group, salt: seq<Byte>, a: nat, b: nat, key: seq<Byte>): seq<Byte>
    requires IsHash(h)
  {
    h(Xor(h(grp.prime), h([grp.generator])) + h(Username()) + Trim(salt) + MinBytes(a) + MinBytes(b) + key)
  }

  /** M2 */
  function Answer(h: Hash, a: nat, m1: seq<Byte>, key: seq<Byte>): seq<Byte> {
    h(MinBytes(a) + m1 + key)
  }

  /** b, from the bytes drawn for it. */
  function SecretValue(grp: Group, random: seq<Byte>): (b: nat)
    requires grp.Valid()
    ensures b < grp.Modulus()
  {
    ModulusFits(grp);
    FromBytes(random) % grp.Modulus()
  }

  /** B, from the server's secret b. */
  function PublicValue(h: Hash, grp: Group, salt: seq<Byte>, username: seq<Byte>, password: seq<Byte>, b: nat): (r: nat)
    requires grp.Valid()
    ensures r < grp.Modulus()
  {
    ModulusFits(grp);
    ServerPublic(grp.generator, Multiplier(h, grp), Verifier(h, grp, salt, username, password), b, grp.Modulus())
  }

  /** A client key longer than 384 bytes is cut to its first 384, a shorter one padded in front. */
  function Received(clientKey: seq<Byte>): (s: seq<Byte>)
    ensures |s| == PRIME_BYTES
  {
    if |clientKey| > PRIME_BYTES then clientKey[..PRIME_BYTES]
    else Zeros(PRIME_BYTES - |clientKey|) + clientKey
  }

  /** The server's key, from what it has stored and received. */
  function ServerKey(h: Hash, grp: Group, salt: seq<Byte>, secret: seq<Byte>, padB: seq<Byte>,
                     padA: seq<Byte>): seq<Byte>
    requires grp.Valid()
  {
    ModulusFits(grp);
    KeyOf(h, ServerSecret(FromBytes(padA), Verifier(h, grp, salt, Username(), Password()), Scramble(h, padA, padB),
                          FromBytes(secret), grp.Modulus()))
  }

  /** The client's key, from its own secret a and the password. */
  function ClientKey(h: Hash, grp: Group, salt: seq<Byte>, a: nat, padB: seq<Byte>, padA: seq<Byte>): seq<Byte>
    requires grp.Valid()
  {
    ModulusFits(grp);
    KeyOf(h, ClientSecret(FromBytes(padB), grp.generator, Multiplier(h, grp),
                          PrivateKey(h, salt, Username(), Password()),
                          a, Scramble(h, padA, padB), grp.Modulus()))
  }

  /** The bytes are those of a number that is g^a modulo N, in no more than 384 of them. */
  predicate Represents(grp: Group, clientKey: seq<Byte>, a: nat)
    requires grp.Valid()
  {
    ModulusFits(grp);
    |clientKey| <= PRIME_BYTES && FromBytes(clientKey) % grp.Modulus() == PowMod(grp.generator, a, grp.Modulus())
  }

  datatype Outcome =
    | Malformed                                  // the proof is too short: nothing is stored
    | BadKey                                     // A is a multiple of the modulus
    | BadProof(key: seq<Byte>)                   // the session key is stored all the same
    | Accepted(key: seq<Byte>, answer: seq<Byte>)

  /** srp_verify_client on the stored salt, b and B. */
  function Verify(h: Hash, grp: Group, salt: seq<Byte>, secret: seq<Byte>, padB: seq<Byte>, clientKey: seq<Byte>,
                  proof: seq<Byte>): Outcome
    requires IsHash(h) && grp.Valid()
  {
    ModulusFits(grp);
    var padA := Received(clientKey);
    var a := FromBytes(padA);
    if |proof| < PROOF_BYTES then Malformed
    else if a % grp.Modulus() == 0 then BadKey
    else
      var key := ServerKey(h, grp, salt, secret, padB, padA);
      var m1 := proof[..PROOF_BYTES];
      if m1 == Proof(h, grp, salt, a, FromBytes(padB), key) then Accepted(key, Answer(h, a, m1, key)) else BadProof(key)
  }

  /** What srp_start stored for b and B reads back unchanged. */
  lemma StoredReadsBack(grp: Group, n: nat)
    requires grp.Valid() && n < grp.Modulus()
    ensures FromBytes(ToBytes(n, PRIME_BYTES)) == n && n < Pow(256, PRIME_BYTES)
  {
    hide Group.Modulus, Pow;
    ModulusFits(grp);
    SizeFits(n, PRIME_BYTES);
    SizeFits(grp.Modulus(), PRIME_BYTES);
    WritingKeepsValue(n, PRIME_BYTES);
  }

  /** The received key has the value that was sent exactly if it came in at most 384 bytes, or is
      zero: with even one zero byte too many in front, the cut drops the end of the number. */
  lemma {:induction false} ReceivedKeepsValue(clientKey: seq<Byte>)
    ensures FromBytes(Received(clientKey)) == FromBytes(clientKey) <==>
      |clientKey| <= PRIME_BYTES || FromBytes(clientKey) == 0
  {
    if |clientKey| <= PRIME_BYTES {
      PaddingKeepsValue(PRIME_BYTES - |clientKey|, clientKey);
    } else {
      CuttingLosesValue(clientKey[..PRIME_BYTES], clientKey[PRIME_BYTES..]);
      assert clientKey == clientKey[..PRIME_BYTES] + clientKey[PRIME_BYTES..];
    }
  }

  /** Both sides derive the same key: for every salt, b, a and hash, and every way of at most 384
      bytes to send a number that is g^a modulo N. */
  lemma {:induction false} KeysAgree(h: Hash, grp: Group, salt: seq<Byte>, random: seq<Byte>, a: nat,
                                     clientKey: seq<Byte>)
    requires grp.Valid()
    ensures
      var b := SecretValue(grp, random);
      var padB := ToBytes(PublicValue(h, grp, salt, Username(), Password(), b), PRIME_BYTES);
      var padA := Received(clientKey);
      Represents(grp, clientKey, a) ==>
        ServerKey(h, grp, salt, ToBytes(b, PRIME_BYTES), padB, padA) == ClientKey(h, grp, salt, a, padB, padA)
  {
    hide Group.Modulus, ServerSecret, ClientSecret, PowMod, Multiplier, PrivateKey, Scramble, Received,
         Username, Password;
    if Represents(grp, clientKey, a) {
      var b := SecretValue(grp, random);
      var x := PrivateKey(h, salt, Username(), Password());
      var bigB := PublicValue(h, grp, salt, Username(), Password(), b);
      var padB := ToBytes(bigB, PRIME_BYTES);
      ReceivedKeepsValue(clientKey);
      StoredReadsBack(grp, b);
      StoredReadsBack(grp, bigB);
      ModulusFits(grp);
      var u := Scramble(h, Received(clientKey), padB);
      SecretsAgree(FromBytes(clientKey), grp.generator, Multiplier(h, grp), a, b, x, u, grp.Modulus());
    }
  }

  /** An honest client, who knows the password and whose A is not zero modulo N, is accepted; it
      holds the server's key and the server's answer is the one it expects. */
  lemma {:induction false} HonestClientIsAccepted(h: Hash, grp: Group, salt: seq<Byte>, random: seq<Byte>, a: nat,
                                                  clientKey: seq<Byte>)
    requires IsHash(h) && grp.Valid()
    ensures
      var b := SecretValue(grp, random);
      var bigB := PublicValue(h, grp, salt, Username(), Password(), b);
      var padB, padA := ToBytes(bigB, PRIME_BYTES), Received(clientKey);
      var key := ClientKey(h, grp, salt, a, padB, padA);
      var m1 := Proof(h, grp, salt, FromBytes(clientKey), bigB, key);
      grp.Modulus() > 0 && (Represents(grp, clientKey, a) && FromBytes(clientKey) % grp.Modulus() != 0 ==>
        Verify(h, grp, salt, ToBytes(b, PRIME_BYTES), padB, clientKey, m1)
          == Accepted(key, Answer(h, FromBytes(clientKey), m1, key)))
  {
    hide Group.Modulus, ServerKey, ClientKey, Proof, Answer, PowMod, Received,
         Username, Password, PublicValue, SecretValue;
    var b := SecretValue(grp, random);
    var bigB := PublicValue(h, grp, salt, Username(), Password(), b);
    ModulusFits(grp);
    ReceivedKeepsValue(clientKey);
    StoredReadsBack(grp, bigB);
    KeysAgree(h, grp, salt, random, a, clientKey);
    ProofLength(h, grp, salt, FromBytes(clientKey), bigB,
                ClientKey(h, grp, salt, a, ToBytes(bigB, PRIME_BYTES), Received(clientKey)));
  }

  lemma ProofLength(h: Hash, grp: Group, salt: seq<Byte>, a: nat, b: nat, key: seq<Byte>)
    requires IsHash(h)
    ensures |Proof(h, grp, salt, a, b, key)| == PROOF_BYTES
  {
  }
}
