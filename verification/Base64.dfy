/** Base64 (RFC 4648, section 4). */
module Base64 {
  import opened MachineIntegers
  import opened Wrappers

  type Bytes = seq<Byte>

  const PAD: Byte := 61
  const INVALID: Byte := 255

  /** The alphabet: A to Z, a to z, 0 to 9, plus and slash, as character codes. */
  function Letter(v: nat): Byte
    requires v < 64
  {
    if v < 26 then 65 + v
    else if v < 52 then 97 + (v - 26)
    else if v < 62 then 48 + (v - 52)
    else if v == 62 then 43
    else 47
  }

  function Row2(): (r: Bytes)
    ensures |r| == 16
  {
    [255, 255, 255, 255, 255, 255, 255, 255, 255, 255, 255, 62, 255, 255, 255, 63]
  }

  function Row3(): (r: Bytes)
    ensures |r| == 16
  {
    [52, 53, 54, 55, 56, 57, 58, 59, 60, 61, 255, 255, 255, 0, 255, 255]
  }

  function Row4(): (r: Bytes)
    ensures |r| == 16
  {
    [255, 0, 1, 2, 3, 4, 5, 6, 7, 8, 9, 10, 11, 12, 13, 14]
  }

  function Row5(): (r: Bytes)
    ensures |r| == 16
  {
    [15, 16, 17, 18, 19, 20, 21, 22, 23, 24, 25, 255, 255, 255, 255, 255]
  }

  function Row6(): (r: Bytes)
    ensures |r| == 16
  {
    [255, 26, 27, 28, 29, 30, 31, 32, 33, 34, 35, 36, 37, 38, 39, 40]
  }

  function Row7(): (r: Bytes)
    ensures |r| == 16
  {
    [41, 42, 43, 44, 45, 46, 47, 48, 49, 50, 51, 255, 255, 255, 255, 255]
  }

  /** The decode table; its rows of 16 outside 2 to 7 hold nothing valid. */
  function Value(c: Byte): Byte {
    var row, i := c / 16, c % 16;
    if row == 2 then Row2()[i]
    else if row == 3 then Row3()[i]
    else if row == 4 then Row4()[i]
    else if row == 5 then Row5()[i]
    else if row == 6 then Row6()[i]
    else if row == 7 then Row7()[i]
    else INVALID
  }

  /** What the table holds: the place of each letter, a zero for the pad, and nothing else. */
  function Place(c: Byte): Byte {
    if 65 <= c <= 90 then c - 65
    else if 97 <= c <= 122 then 26 + (c - 97)
    else if 48 <= c <= 57 then 52 + (c - 48)
    else if c == 43 then 62
    else if c == 47 then 63
    else if c == PAD then 0
    else INVALID
  }

  lemma LowRows(c: Byte)
    requires c < 64
    ensures Value(c) == Place(c)
  {
  }

  lemma MiddleRows(c: Byte)
    requires 64 <= c < 96
    ensures Value(c) == Place(c)
  {
  }

  lemma HighRows(c: Byte)
    requires 96 <= c
    ensures Value(c) == Place(c)
  {
  }

  lemma {:induction false} TableHoldsPlaces(c: Byte)
    ensures Value(c) == Place(c)
  {
    if c < 64 {
      LowRows(c);
    } else if c < 96 {
      MiddleRows(c);
    } else {
      HighRows(c);
    }
  }

  predicate IsSpace(c: Byte) {
    c == 32 || c == 9 || c == 10 || c == 13
  }

  lemma LettersDecode(v: nat)
    requires v < 64
    ensures Value(Letter(v)) == v && !IsSpace(Letter(v)) && Letter(v) != PAD
  {
    hide Value;
    TableHoldsPlaces(Letter(v));
  }

  lemma ValuesFit(c: Byte)
    ensures Value(c) < 64 || Value(c) == INVALID
  {
    hide Value;
    TableHoldsPlaces(c);
  }

  // Encoding.

  /** Up to three bytes as a 24-bit number, missing ones as zero. */
  function Triple(g: Bytes): nat
    requires 1 <= |g| <= 3
  {
    (g[0] as int) * 0x1_0000 + (if |g| > 1 then g[1] as int else 0) * 0x100 + if |g| > 2 then g[2] as int else 0
  }

  function Quad(g: Bytes): (q: Bytes)
    requires 1 <= |g| <= 3
    ensures |q| == 4
  {
    var t := Triple(g);
    [Letter(t / 0x4_0000 % 64), Letter(t / 0x1000 % 64),
     if |g| > 1 then Letter(t / 0x40 % 64) else PAD, if |g| > 2 then Letter(t % 64) else PAD]
  }

  function Group(data: Bytes): (g: Bytes)
    requires data != []
    ensures 1 <= |g| <= 3 && g <= data
  {
    if |data| > 3 then data[..3] else data
  }

  function Encoded(data: Bytes): Bytes
    decreases |data|
  {
    if data == [] then [] else Quad(Group(data)) + Encoded(data[|Group(data)|..])
  }

  /** The alphabet of the standard. */
  function Alphabet(): (s: string)
    ensures |s| == 64
  {
    "ABCDEFGHIJKLM" + "NOPQRSTUVWXYZ" + "abcdefghijklm" + "nopqrstuvwxyz" + "0123456789+/"
  }

  lemma LetterIsAlphabet(v: nat)
    requires v < 64
    ensures Letter(v) == Alphabet()[v] as int
  {
    var upper, lower, rest := "ABCDEFGHIJKLM" + "NOPQRSTUVWXYZ", "abcdefghijklm" + "nopqrstuvwxyz", "0123456789+/";
    assert Alphabet() == upper + lower + rest;
    if v < 26 {
      UpperAt(v);
    } else if v < 52 {
      LowerAt(v - 26);
    } else {
      assert rest[v - 52] as int == Letter(v);
    }
  }

  lemma UpperAt(v: nat)
    requires v < 26
    ensures ("ABCDEFGHIJKLM" + "NOPQRSTUVWXYZ")[v] as int == 65 + v
  {
    if v < 13 {
      assert "ABCDEFGHIJKLM"[v] as int == 65 + v;
    } else {
      assert "NOPQRSTUVWXYZ"[v - 13] as int == 65 + v;
    }
  }

  lemma LowerAt(v: nat)
    requires v < 26
    ensures ("abcdefghijklm" + "nopqrstuvwxyz")[v] as int == 97 + v
  {
    if v < 13 {
      assert "abcdefghijklm"[v] as int == 97 + v;
    } else {
      assert "nopqrstuvwxyz"[v - 13] as int == 97 + v;
    }
  }

  /** Byte k of the data, or zero past its end. */
  function ByteAt(data: Bytes, k: nat): (b: nat)
    ensures b < 256
  {
    if k < |data| then data[k] as int else 0
  }

  function CharAt(v: nat): (c: Byte)
    requires v < 64
  {
    LetterIsAlphabet(v);
    Alphabet()[v] as int
  }

  /** The four six-bit parts of bytes k to k + 2 in letters, with an equals sign where there is no byte. */
  function Letters(data: Bytes, k: nat): (q: Bytes)
    requires k < |data|
    ensures |q| == 4
  {
    var x, y, z := ByteAt(data, k), ByteAt(data, k + 1), ByteAt(data, k + 2);
    [CharAt(x / 4), CharAt(x % 4 * 16 + y / 16),
     if k + 1 < |data| then CharAt(y % 16 * 4 + z / 64) else 61, if k + 2 < |data| then CharAt(z % 64) else 61]
  }

  /** Characters 4 i to 4 i + 3 of the encoding are the letters of bytes 3 i to 3 i + 2. */
  lemma {:induction false} EncodedLayout(data: Bytes, i: nat)
    requires 3 * i < |data|
    ensures 4 * i + 4 <= |Encoded(data)| && Encoded(data)[4 * i..4 * i + 4] == Letters(data, 3 * i)
    decreases i
  {
    hide Letter, CharAt, Quad, Encoded, Letters;
    if i == 0 {
      FirstQuad(data);
    } else {
      var rest, head := data[3..], Quad(data[..3]);
      EncodedLayout(rest, i - 1);
      LongerData(data);
      SameLetters(data, 3 * i);
      var at := 4 * (i - 1);
      assert (head + Encoded(rest))[4 + at..4 + at + 4] == Encoded(rest)[at..at + 4];
    }
  }

  lemma LongerData(data: Bytes)
    requires |data| > 3
    ensures Encoded(data) == Quad(data[..3]) + Encoded(data[3..])
  {
  }

  lemma SameLetters(data: Bytes, k: nat)
    requires 3 <= k < |data|
    ensures Letters(data[3..], k - 3) == Letters(data, k)
  {
    hide CharAt;
    assert ByteAt(data[3..], k - 3) == ByteAt(data, k) && ByteAt(data[3..], k - 2) == ByteAt(data, k + 1);
    assert ByteAt(data[3..], k - 1) == ByteAt(data, k + 2);
  }

  lemma FirstQuad(data: Bytes)
    requires data != []
    ensures 4 <= |Encoded(data)| && Encoded(data)[..4] == Letters(data, 0)
  {
    hide Letter, Triple;
    var g := Group(data);
    var x, y, z := ByteAt(data, 0), ByteAt(data, 1), ByteAt(data, 2);
    assert x == ByteAt(g, 0) && y == ByteAt(g, 1) && z == ByteAt(g, 2);
    Parts(g, x, y, z);
    LetterIsAlphabet(x / 4);
    LetterIsAlphabet(x % 4 * 16 + y / 16);
    LetterIsAlphabet(y % 16 * 4 + z / 64);
    LetterIsAlphabet(z % 64);
  }

  lemma Parts(g: Bytes, x: nat, y: nat, z: nat)
    requires 1 <= |g| <= 3 && x == ByteAt(g, 0) && y == ByteAt(g, 1) && z == ByteAt(g, 2)
    ensures var t := Triple(g);
      && t / 0x4_0000 % 64 == x / 4 && t / 0x1000 % 64 == x % 4 * 16 + y / 16
      && t / 0x40 % 64 == y % 16 * 4 + z / 64 && t % 64 == z % 64
  {
    FourParts(x / 4, x % 4 * 16 + y / 16, y % 16 * 4 + z / 64, z % 64);
    assert Triple(g) == x / 4 * 0x4_0000 + (x % 4 * 16 + y / 16) * 0x1000 + (y % 16 * 4 + z / 64) * 0x40 + z % 64;
  }

  function EncodedLength(len: nat): nat {
    (len + 2) / 3 * 4
  }

  lemma {:induction false} LengthIsExact(data: Bytes)
    ensures |Encoded(data)| == EncodedLength(|data|)
    decreases |data|
  {
    if data != [] {
      var n := |Group(data)|;
      LengthIsExact(data[n..]);
      assert (|data| + 2) / 3 == (|data| - n + 2) / 3 + 1;
    }
  }

  // Decoding.

  /** The characters that are no white space. */
  function Strip(s: Bytes): (r: Bytes)
    ensures |r| <= |s|
  {
    if s == [] then [] else (if IsSpace(s[0]) then [] else [s[0]]) + Strip(s[1..])
  }

  function ShiftIn(accum: Uint32, v: Byte): Uint32 {
    (accum * 64 + v) % 0x1_0000_0000
  }

  /** The byte at the top of the accumulator once `bits` of it stay behind. */
  function ByteAbove(accum: Uint32, bits: nat): Byte {
    (if bits == 0 then accum else if bits == 2 then accum / 4 else accum / 16) % 0x100
  }

  predicate BitCount(bits: nat) {
    bits == 0 || bits == 2 || bits == 4 || bits == 6
  }

  /** The decoding loop from some point on: what was written, or a failure. */
  function DecodeFrom(s: Bytes, accum: Uint32, bits: nat, out: Bytes, capacity: nat): Option<Bytes>
    requires BitCount(bits)
    decreases |s|
  {
    if s == [] then Some(out)
    else if IsSpace(s[0]) then DecodeFrom(s[1..], accum, bits, out, capacity)
    else if s[0] == PAD then Some(out)
    else if Value(s[0]) == INVALID then None
    else
      var next := ShiftIn(accum, Value(s[0]));
      if bits < 2 then DecodeFrom(s[1..], next, bits + 6, out, capacity)
      else if |out| >= capacity then None
      else DecodeFrom(s[1..], next, bits - 2, out + [ByteAbove(next, bits - 2)], capacity)
  }

  function Decoded(s: Bytes, capacity: nat): Option<Bytes> {
    if capacity == 0 || |Strip(s)| * 3 / 4 > capacity then None else DecodeFrom(s, 0, 0, [], capacity)
  }

  lemma {:induction false} DecodeUnfolds(s: Bytes, accum: Uint32, bits: nat, out: Bytes, capacity: nat)
    requires BitCount(bits)
    ensures DecodeFrom(s, accum, bits, out, capacity) ==
      if s == [] then Some(out)
      else if IsSpace(s[0]) then DecodeFrom(s[1..], accum, bits, out, capacity)
      else if s[0] == PAD then Some(out)
      else if Value(s[0]) == INVALID then None
      else
        var next := ShiftIn(accum, Value(s[0]));
        if bits < 2 then DecodeFrom(s[1..], next, bits + 6, out, capacity)
        else if |out| >= capacity then None
        else DecodeFrom(s[1..], next, bits - 2, out + [ByteAbove(next, bits - 2)], capacity)
  {
  }

  /** White space makes no difference to the loop. */
  lemma {:induction false} SpacesDoNotCount(s: Bytes, accum: Uint32, bits: nat, out: Bytes, capacity: nat)
    requires BitCount(bits)
    ensures DecodeFrom(s, accum, bits, out, capacity) == DecodeFrom(Strip(s), accum, bits, out, capacity)
    decreases |s|
  {
    hide DecodeFrom, IsSpace, Value, ShiftIn, ByteAbove;
    DecodeUnfolds(s, accum, bits, out, capacity);
    DecodeUnfolds(Strip(s), accum, bits, out, capacity);
    if s != [] {
      if IsSpace(s[0]) {
        assert Strip(s) == [] + Strip(s[1..]) == Strip(s[1..]);
        SpacesDoNotCount(s[1..], accum, bits, out, capacity);
      } else {
        assert Strip(s) == [s[0]] + Strip(s[1..]);
        assert Strip(s)[1..] == Strip(s[1..]);
        var next := ShiftIn(accum, if Value(s[0]) < 64 then Value(s[0]) else 0);
        ValuesFit(s[0]);
        if bits < 2 {
          SpacesDoNotCount(s[1..], next, bits + 6, out, capacity);
        } else {
          SpacesDoNotCount(s[1..], next, bits - 2, out + [ByteAbove(next, bits - 2)], capacity);
        }
      }
    }
  }

  /** One letter in, and a byte out when at least two bits were waiting. */
  lemma OneLetter(v: nat, rest: Bytes, accum: Uint32, bits: nat, out: Bytes, capacity: nat)
    requires v < 64 && BitCount(bits) && (bits < 2 || |out| < capacity)
    ensures DecodeFrom([Letter(v)] + rest, accum, bits, out, capacity) ==
      var next := ShiftIn(accum, v);
      if bits < 2 then DecodeFrom(rest, next, bits + 6, out, capacity)
      else DecodeFrom(rest, next, bits - 2, out + [ByteAbove(next, bits - 2)], capacity)
  {
    hide Value, Letter, IsSpace;
    LettersDecode(v);
    assert ([Letter(v)] + rest)[1..] == rest;
  }

  lemma LowByte(h: nat, r: nat)
    requires r < 0x100
    ensures (0x100 * h + r) % 0x100 == r
  {
  }

  /** The 32-bit wrap leaves the low twelve bits alone. */
  lemma WrapKeepsBits(h: nat, r: nat)
    requires r < 0x1000
    ensures (0x1000 * h + r) % 0x1_0000_0000 == 0x1000 * (h % 0x10_0000) + r
  {
    var q := h / 0x10_0000;
    assert 0x1000 * h + r == q * 0x1_0000_0000 + (0x1000 * (h % 0x10_0000) + r);
  }

  lemma ShiftedIs(accum: Uint32, v: nat)
    requires v < 64
    ensures ShiftIn(accum, v) == 0x1000 * (accum / 64 % 0x10_0000) + (accum % 64 * 64 + v)
  {
    var h, low := accum / 64, accum % 64;
    assert accum * 64 + v == 0x1000 * h + (low * 64 + v);
    WrapKeepsBits(h, low * 64 + v);
  }

  lemma Above4(k: nat, low: nat, v: nat)
    requires low < 64 && v < 64
    ensures (0x1000 * k + (low * 64 + v)) / 16 % 0x100 == low * 4 + v / 16
  {
    assert (0x1000 * k + (low * 64 + v)) / 16 == 0x100 * k + (low * 4 + v / 16);
    LowByte(k, low * 4 + v / 16);
  }

  lemma Above2(k: nat, low: nat, v: nat)
    requires low < 64 && v < 64
    ensures (0x1000 * k + (low * 64 + v)) / 4 % 0x100 == low % 16 * 16 + v / 4
  {
    assert (0x1000 * k + (low * 64 + v)) / 4 == 0x100 * (4 * k + low / 16) + (low % 16 * 16 + v / 4);
    LowByte(4 * k + low / 16, low % 16 * 16 + v / 4);
  }

  lemma Above0(k: nat, low: nat, v: nat)
    requires low < 64 && v < 64
    ensures (0x1000 * k + (low * 64 + v)) % 0x100 == low % 4 * 64 + v
  {
    assert 0x1000 * k + (low * 64 + v) == 0x100 * (16 * k + low / 4) + (low % 4 * 64 + v);
    LowByte(16 * k + low / 4, low % 4 * 64 + v);
  }

  lemma LowSix(h: nat, v: nat)
    requires v < 64
    ensures (64 * h + v) % 64 == v
  {
  }

  /** A letter comes in below the bits that wait; the byte taken off shows those and the letter, and
      nothing that lies above them. */
  lemma ByteComesOff(accum: Uint32, v: nat)
    requires v < 64
    ensures var next := ShiftIn(accum, v);
      && next % 64 == v
      && ByteAbove(next, 4) == accum % 64 * 4 + v / 16
      && ByteAbove(next, 2) == accum % 64 % 16 * 16 + v / 4
      && ByteAbove(next, 0) == accum % 64 % 4 * 64 + v
  {
    hide ShiftIn;
    ShiftedIs(accum, v);
    var k, low := accum / 64 % 0x10_0000, accum % 64;
    Above4(k, low, v);
    Above2(k, low, v);
    Above0(k, low, v);
    LowSix(64 * k + low, v);
  }

  /** The accumulator may hold anything above the bits that wait; the bytes taken off do not show it. */
  lemma {:induction false} BytesComeOff(accum: Uint32, a: nat, b: nat, c: nat, d: nat)
    requires a < 64 && b < 64 && c < 64 && d < 64
    ensures var two := ShiftIn(ShiftIn(accum, a), b); var three := ShiftIn(two, c);
      && ByteAbove(two, 4) == a * 4 + b / 16
      && ByteAbove(three, 2) == b % 16 * 16 + c / 4
      && ByteAbove(ShiftIn(three, d), 0) == c % 4 * 64 + d
  {
    hide ShiftIn, ByteAbove;
    var one := ShiftIn(accum, a);
    var two := ShiftIn(one, b);
    ByteComesOff(accum, a);
    ByteComesOff(one, b);
    ByteComesOff(two, c);
    ByteComesOff(ShiftIn(two, c), d);
  }

  lemma FourParts(a: nat, b: nat, c: nat, d: nat)
    requires a < 64 && b < 64 && c < 64 && d < 64
    ensures var t := a * 0x4_0000 + b * 0x1000 + c * 0x40 + d;
      t / 0x4_0000 % 64 == a && t / 0x1000 % 64 == b && t / 0x40 % 64 == c && t % 64 == d
  {
    var t := a * 0x4_0000 + b * 0x1000 + c * 0x40 + d;
    assert t / 0x4_0000 == a;
    assert t / 0x1000 == 64 * a + b;
    assert t / 0x40 == 64 * (64 * a + b) + c;
  }

  /** The four letters of three bytes hold them in pieces. */
  lemma Pieces(g: Bytes)
    requires 1 <= |g| <= 3
    ensures var t := Triple(g); var a, b, c, d := t / 0x4_0000 % 64, t / 0x1000 % 64, t / 0x40 % 64, t % 64;
      && g[0] == a * 4 + b / 16
      && (|g| > 1 ==> g[1] == b % 16 * 16 + c / 4)
      && (|g| > 2 ==> g[2] == c % 4 * 64 + d)
  {
    hide Triple;
    Parts(g, ByteAt(g, 0), ByteAt(g, 1), ByteAt(g, 2));
  }

  /** A full group decodes to its three bytes, whatever the accumulator held before. */
  lemma FullGroupDecodes(g: Bytes, rest: Bytes, accum: Uint32, out: Bytes, capacity: nat)
    requires |g| == 3 && |out| + 3 <= capacity
    ensures exists next: Uint32 ::
      DecodeFrom(Quad(g) + rest, accum, 0, out, capacity) == DecodeFrom(rest, next, 0, out + g, capacity)
  {
    hide DecodeFrom, Letter, ShiftIn, ByteAbove;
    var t := Triple(g);
    var a, b, c, d := t / 0x4_0000 % 64, t / 0x1000 % 64, t / 0x40 % 64, t % 64;
    Pieces(g);
    FourLetters(a, b, c, d, rest, accum, out, capacity);
    assert [Octet0(a, b), Octet1(b, c), Octet2(c, d)] == g;
  }

  /** A padded group decodes to its one or two bytes and ends the loop. */
  lemma LastGroupDecodes(g: Bytes, accum: Uint32, out: Bytes, capacity: nat)
    requires 1 <= |g| <= 2 && |out| + 3 <= capacity
    ensures DecodeFrom(Quad(g), accum, 0, out, capacity) == Some(out + g)
  {
    hide DecodeFrom, Letter;
    var t := Triple(g);
    var a, b, c := t / 0x4_0000 % 64, t / 0x1000 % 64, t / 0x40 % 64;
    var vs: seq<Sextet>, pads := if |g| == 1 then [a, b] else [a, b, c], if |g| == 1 then [PAD, PAD] else [PAD];
    Pieces(g);
    LastLetters(vs, pads, accum, out, capacity);
    assert Quad(g) == Text(vs) + pads;
    assert Octets(vs) == g;
  }

  lemma {:induction false} LoopInverts(data: Bytes, accum: Uint32, out: Bytes, capacity: nat)
    requires |out| + 3 * ((|data| + 2) / 3) <= capacity
    ensures DecodeFrom(Encoded(data), accum, 0, out, capacity) == Some(out + data)
    decreases |data|
  {
    hide Quad;
    if data == [] {
      assert out + data == out;
    } else if |data| < 3 {
      assert Encoded(data) == Quad(data) by {
        assert data[|data|..] == [];
        assert Quad(data) + [] == Quad(data);
      }
      LastGroupDecodes(data, accum, out, capacity);
    } else {
      var g, rest := Group(data), data[3..];
      assert g == data[..3];
      FullGroupDecodes(g, Encoded(rest), accum, out, capacity);
      var next: Uint32 :|
        DecodeFrom(Quad(g) + Encoded(rest), accum, 0, out, capacity)
          == DecodeFrom(Encoded(rest), next, 0, out + g, capacity);
      LoopInverts(rest, next, out + g, capacity);
      assert (out + g) + rest == out + data;
    }
  }

  predicate Blank(c: Byte) {
    c == ' ' as int || c == '\t' as int || c == '\n' as int || c == '\r' as int
  }

  /** `spaced` is the text with blanks, tabs and line ends put in anywhere. */
  ghost predicate Spaced(spaced: Bytes, text: Bytes)
    decreases |spaced|
  {
    if spaced == [] then text == []
    else if Blank(spaced[0]) then Spaced(spaced[1..], text)
    else text != [] && spaced[0] == text[0] && Spaced(spaced[1..], text[1..])
  }

  lemma {:induction false} SpacedStrips(spaced: Bytes, text: Bytes)
    requires Spaced(spaced, text)
    ensures Strip(spaced) == text
    decreases |spaced|
  {
    if spaced != [] {
      SpacedStrips(spaced[1..], if Blank(spaced[0]) then text else text[1..]);
    }
  }

  /** The round trip: with white space put in anywhere, decoding gives back the bytes exactly when the
      capacity is not zero and covers three bytes for every four characters; it fails otherwise. */
  lemma {:induction false} RoundTrip(data: Bytes, spaced: Bytes, capacity: nat)
    requires Spaced(spaced, Encoded(data))
    ensures Decoded(spaced, capacity) ==
      if capacity == 0 || 3 * ((|data| + 2) / 3) > capacity then None else Some(data)
  {
    hide DecodeFrom, Encoded, Strip, Spaced;
    SpacedStrips(spaced, Encoded(data));
    LengthIsExact(data);
    assert |Strip(spaced)| * 3 / 4 == 3 * ((|data| + 2) / 3);
    if capacity > 0 && 3 * ((|data| + 2) / 3) <= capacity {
      SpacesDoNotCount(spaced, 0, 0, [], capacity);
      LoopInverts(data, 0, [], capacity);
      assert [] + data == data;
    }
  }

  /** A character that is none of the alphabet, no equals sign and no white space, before any equals sign,
      makes the text fail, whatever the rest of it is and whatever the capacity. */
  lemma {:induction false} BadCharacterFails(text: Bytes, k: nat, capacity: nat)
    requires k < |text| && forall i :: 0 <= i <= k ==> text[i] != '=' as int
    requires !Blank(text[k]) && forall v :: 0 <= v < 64 ==> text[k] != Alphabet()[v] as int
    ensures Decoded(text, capacity) == None
  {
    hide DecodeFrom, Alphabet;
    NoLetterIsInvalid(text[k]);
    LoopFails(text, 0, 0, [], k, capacity);
  }

  lemma NoLetterIsInvalid(c: Byte)
    requires c != 61 && forall v :: 0 <= v < 64 ==> c != Alphabet()[v] as int
    ensures Value(c) == INVALID
  {
    hide Value, Alphabet;
    TableHoldsPlaces(c);
    if Place(c) != INVALID {
      LetterIsAlphabet(Place(c));
    }
  }

  lemma {:induction false} LoopFails(text: Bytes, accum: Uint32, bits: nat, out: Bytes, k: nat, capacity: nat)
    requires BitCount(bits) && k < |text| && forall i :: 0 <= i <= k ==> text[i] != PAD
    requires !IsSpace(text[k]) && Value(text[k]) == INVALID
    ensures DecodeFrom(text, accum, bits, out, capacity) == None
    decreases k
  {
    hide DecodeFrom, IsSpace, Value, ShiftIn, ByteAbove;
    DecodeUnfolds(text, accum, bits, out, capacity);
    if k > 0 {
      ValuesFit(text[0]);
      if IsSpace(text[0]) {
        LoopFails(text[1..], accum, bits, out, k - 1, capacity);
      } else if Value(text[0]) != INVALID {
        var next := ShiftIn(accum, Value(text[0]));
        if bits < 2 {
          LoopFails(text[1..], next, bits + 6, out, k - 1, capacity);
        } else {
          LoopFails(text[1..], next, bits - 2, out + [ByteAbove(next, bits - 2)], k - 1, capacity);
        }
      }
    }
  }

  // Any letters at all.

  type Sextet = v: int | 0 <= v < 64

  function Text(vs: seq<Sextet>): (t: Bytes)
    ensures |t| == |vs|
  {
    seq(|vs|, i requires 0 <= i < |vs| => Letter(vs[i]))
  }

  function Octet0(a: Sextet, b: Sextet): Byte { 4 * (a as int) + (b as int) / 16 }

  function Octet1(b: Sextet, c: Sextet): Byte { (b as int) % 16 * 16 + (c as int) / 4 }

  function Octet2(c: Sextet, d: Sextet): Byte { (c as int) % 4 * 64 + (d as int) }

  /** Byte j of the letters' bits in a row, six to a letter. */
  function Octet(vs: seq<Sextet>, j: nat): Byte
    requires j < 6 * |vs| / 8
  {
    var i := j / 3 * 4;
    if j % 3 == 0 then Octet0(vs[i], vs[i + 1])
    else if j % 3 == 1 then Octet1(vs[i + 1], vs[i + 2])
    else Octet2(vs[i + 2], vs[i + 3])
  }

  function Octets(vs: seq<Sextet>): (o: Bytes)
    ensures |o| == 6 * |vs| / 8
  {
    seq(6 * |vs| / 8, j requires 0 <= j < 6 * |vs| / 8 => Octet(vs, j))
  }

  lemma OctetsOfMore(vs: seq<Sextet>)
    requires |vs| >= 4
    ensures Octets(vs) == [Octet0(vs[0], vs[1]), Octet1(vs[1], vs[2]), Octet2(vs[2], vs[3])] + Octets(vs[4..])
  {
    hide Octet0, Octet1, Octet2;
    forall j | 3 <= j < |Octets(vs)| ensures Octets(vs)[j] == Octets(vs[4..])[j - 3] {
      assert j / 3 == (j - 3) / 3 + 1 && j % 3 == (j - 3) % 3;
    }
  }

  /** Four letters decode to three bytes, whatever the accumulator held before. */
  lemma FourLetters(a: Sextet, b: Sextet, c: Sextet, d: Sextet, rest: Bytes, accum: Uint32, out: Bytes, capacity: nat)
    requires |out| + 3 <= capacity
    ensures exists next: Uint32 ::
      DecodeFrom([Letter(a), Letter(b), Letter(c), Letter(d)] + rest, accum, 0, out, capacity)
        == DecodeFrom(rest, next, 0, out + [Octet0(a, b), Octet1(b, c), Octet2(c, d)], capacity)
  {
    hide DecodeFrom, Letter, ShiftIn, ByteAbove;
    var one := ShiftIn(accum, a);
    var two := ShiftIn(one, b);
    var three := ShiftIn(two, c);
    BytesComeOff(accum, a, b, c, d);
    assert [Letter(a), Letter(b), Letter(c), Letter(d)] + rest
        == [Letter(a)] + ([Letter(b)] + ([Letter(c)] + ([Letter(d)] + rest)));
    OneLetter(a, [Letter(b)] + ([Letter(c)] + ([Letter(d)] + rest)), accum, 0, out, capacity);
    OneLetter(b, [Letter(c)] + ([Letter(d)] + rest), one, 6, out, capacity);
    OneLetter(c, [Letter(d)] + rest, two, 4, out + [Octet0(a, b)], capacity);
    OneLetter(d, rest, three, 2, out + [Octet0(a, b)] + [Octet1(b, c)], capacity);
    assert out + [Octet0(a, b)] + [Octet1(b, c)] + [Octet2(c, d)] == out + [Octet0(a, b), Octet1(b, c), Octet2(c, d)];
  }

  /** Up to three letters at the end give no, one or two bytes. */
  lemma LastLetters(vs: seq<Sextet>, tail: Bytes, accum: Uint32, out: Bytes, capacity: nat)
    requires |vs| <= 3 && |out| + 6 * |vs| / 8 <= capacity && (tail == [] || tail[0] == PAD)
    ensures DecodeFrom(Text(vs) + tail, accum, 0, out, capacity) == Some(out + Octets(vs))
  {
    hide DecodeFrom, Letter, ShiftIn, ByteAbove, Octet0, Octet1;
    EndsThere(tail, accum, 0, out, capacity);
    if |vs| == 0 {
      assert Text(vs) + tail == tail && out + Octets(vs) == out;
    } else {
      var a := vs[0];
      var one := ShiftIn(accum, a);
      if |vs| == 1 {
        assert Text(vs) + tail == [Letter(a)] + tail && out + Octets(vs) == out;
        OneLetter(a, tail, accum, 0, out, capacity);
        EndsThere(tail, one, 6, out, capacity);
      } else {
        var b := vs[1];
        var two := ShiftIn(one, b);
        TwoLetters(accum, a, b);
        var more := out + [Octet0(a, b)];
        if |vs| == 2 {
          assert Text(vs) + tail == [Letter(a)] + ([Letter(b)] + tail) && out + Octets(vs) == more;
          OneLetter(a, [Letter(b)] + tail, accum, 0, out, capacity);
          OneLetter(b, tail, one, 6, out, capacity);
          EndsThere(tail, two, 4, more, capacity);
        } else {
          var c := vs[2];
          BytesComeOff(accum, a, b, c, 0);
          assert ByteAbove(ShiftIn(two, c), 2) == Octet1(b, c) by { OctetsAre(a, b, c, 0); }
          assert Text(vs) + tail == [Letter(a)] + ([Letter(b)] + ([Letter(c)] + tail));
          assert out + Octets(vs) == more + [Octet1(b, c)];
          OneLetter(a, [Letter(b)] + ([Letter(c)] + tail), accum, 0, out, capacity);
          OneLetter(b, [Letter(c)] + tail, one, 6, out, capacity);
          OneLetter(c, tail, two, 4, more, capacity);
          EndsThere(tail, ShiftIn(two, c), 2, more + [Octet1(b, c)], capacity);
        }
      }
    }
  }

  lemma OctetsAre(a: Sextet, b: Sextet, c: Sextet, d: Sextet)
    ensures Octet0(a, b) == 4 * (a as int) + (b as int) / 16 && Octet1(b, c) == (b as int) % 16 * 16 + (c as int) / 4
  {
  }

  lemma TwoLetters(accum: Uint32, a: Sextet, b: Sextet)
    ensures ByteAbove(ShiftIn(ShiftIn(accum, a), b), 4) == Octet0(a, b)
  {
    BytesComeOff(accum, a, b, 0, 0);
  }

  lemma EndsThere(tail: Bytes, accum: Uint32, bits: nat, out: Bytes, capacity: nat)
    requires BitCount(bits) && (tail == [] || tail[0] == PAD)
    ensures DecodeFrom(tail, accum, bits, out, capacity) == Some(out)
  {
  }

  lemma {:induction false} LettersDecodeTo(vs: seq<Sextet>, tail: Bytes, accum: Uint32, out: Bytes, capacity: nat)
    requires |out| + 6 * |vs| / 8 <= capacity && (tail == [] || tail[0] == PAD)
    ensures DecodeFrom(Text(vs) + tail, accum, 0, out, capacity) == Some(out + Octets(vs))
    decreases |vs|
  {
    hide DecodeFrom, Letter, Octet0, Octet1, Octet2, Octets;
    if |vs| <= 3 {
      LastLetters(vs, tail, accum, out, capacity);
    } else {
      var a, b, c, d, rest := vs[0], vs[1], vs[2], vs[3], vs[4..];
      var three := [Octet0(a, b), Octet1(b, c), Octet2(c, d)];
      assert Text(vs) + tail == [Letter(a), Letter(b), Letter(c), Letter(d)] + (Text(rest) + tail);
      FourLetters(a, b, c, d, Text(rest) + tail, accum, out, capacity);
      var next: Uint32 :| DecodeFrom([Letter(a), Letter(b), Letter(c), Letter(d)] + (Text(rest) + tail), accum, 0, out,
                                     capacity)
        == DecodeFrom(Text(rest) + tail, next, 0, out + three, capacity);
      LettersDecodeTo(rest, tail, next, out + three, capacity);
      OctetsOfMore(vs);
      assert (out + three) + Octets(rest) == out + (three + Octets(rest));
    }
  }

  /** Any letters, followed by nothing or by an equals sign and whatever comes then, white space put in
      anywhere: if the capacity covers three bytes for every four characters, equals signs and what
      follows included, the result is the letters' bits in a row, eight to a byte, what is left over
      dropped. No padding is asked for. */
  lemma {:induction false} AnyLettersDecode(vs: seq<Sextet>, tail: Bytes, spaced: Bytes, capacity: nat)
    requires tail == [] || tail[0] == '=' as int
    requires Spaced(spaced, Text(vs) + tail) && 0 < capacity && (|vs| + |tail|) * 3 / 4 <= capacity
    ensures Decoded(spaced, capacity) == Some(Octets(vs))
  {
    hide DecodeFrom, Strip, Text, Octets, Spaced;
    SpacedStrips(spaced, Text(vs) + tail);
    SpacesDoNotCount(spaced, 0, 0, [], capacity);
    LettersDecodeTo(vs, tail, 0, [], capacity);
    assert [] + Octets(vs) == Octets(vs);
  }

  /** So a buffer of no bytes cannot even take the empty encoding. */
  lemma EmptyNeedsRoom()
    ensures Encoded([]) == [] && Decoded([], 0) == None && Decoded([], 1) == Some([])
  {
  }

  // The C functions.

  /** base64_encode: the length written, or -1. */
  method Encode(input: Bytes, output: array<Byte>) returns (r: int)
    modifies output
    ensures r == if EncodedLength(|input|) <= output.Length then EncodedLength(|input|) else -1
    ensures r >= 0 ==> output[..r] == Encoded(input)
    ensures forall k :: (if r < 0 then 0 else r) <= k < output.Length ==> output[k] == old(output[k])
  {
    hide Letter, Encoded, Quad, Group, Triple;
    var len := EncodedLength(|input|);
    if len > output.Length {
      return -1;
    }
    LengthIsExact(input);
    ghost var all := Encoded(input);
    var pos, i := 0, 0;
    EncodedAt(input, 0);
    while i < |input|
      invariant 0 <= i && 0 <= pos <= len
      invariant i < |input| ==> output[..pos] + Encoded(input[i..]) == all
      invariant i >= |input| ==> output[..pos] == all
      invariant forall k :: pos <= k < output.Length ==> output[k] == old(output[k])
      decreases |input| - i
    {
      var a: nat := input[i] as int;
      var b: nat := if i + 1 < |input| then input[i + 1] as int else 0;
      var c: nat := if i + 2 < |input| then input[i + 2] as int else 0;
      var triple := a * 0x1_0000 + b * 0x100 + c;
      EncodedAt(input, i);
      QuadAt(input, i);
      ghost var before, quad := output[..pos], Quad(Group(input[i..]));
      ghost var rest := if i + 3 < |input| then Encoded(input[i + 3..]) else [];
      assert before + (quad + rest) == (before + quad) + rest;
      PutFour(output, pos, Letter(triple / 0x4_0000 % 64), Letter(triple / 0x1000 % 64),
              if i + 1 < |input| then Letter(triple / 0x40 % 64) else PAD,
              if i + 2 < |input| then Letter(triple % 64) else PAD);
      pos, i := pos + 4, i + 3;
      assert output[..pos] == before + quad;
    }
    r := len;
  }

  method PutFour(output: array<Byte>, pos: nat, w: Byte, x: Byte, y: Byte, z: Byte)
    requires pos + 4 <= output.Length
    modifies output
    ensures output[..pos + 4] == old(output[..pos]) + [w, x, y, z]
    ensures forall k :: pos + 4 <= k < output.Length ==> output[k] == old(output[k])
  {
    output[pos], output[pos + 1], output[pos + 2], output[pos + 3] := w, x, y, z;
  }

  lemma QuadAt(input: Bytes, i: nat)
    requires i < |input|
    ensures
      var a: nat := input[i] as int;
      var b: nat := if i + 1 < |input| then input[i + 1] as int else 0;
      var c: nat := if i + 2 < |input| then input[i + 2] as int else 0;
      var t := a * 0x1_0000 + b * 0x100 + c;
      Quad(Group(input[i..])) ==
        [Letter(t / 0x4_0000 % 64), Letter(t / 0x1000 % 64),
         if i + 1 < |input| then Letter(t / 0x40 % 64) else PAD, if i + 2 < |input| then Letter(t % 64) else PAD]
  {
    hide Letter;
  }

  lemma EncodedAt(input: Bytes, i: nat)
    requires i <= |input|
    ensures i < |input| ==>
      Encoded(input[i..]) == Quad(Group(input[i..])) + if i + 3 < |input| then Encoded(input[i + 3..]) else []
    ensures Encoded(input[0..]) == Encoded(input) && Encoded([]) == []
  {
    hide Quad;
    assert input[0..] == input;
    if i < |input| {
      var g := Group(input[i..]);
      assert input[i..][|g|..] == if i + 3 < |input| then input[i + 3..] else [];
    }
  }

  /** The first loop of base64_decode. */
  method CountCharacters(input: Bytes) returns (n: nat)
    ensures n == |Strip(input)|
  {
    n := 0;
    for i := 0 to |input|
      invariant n + |Strip(input[i..])| == |Strip(input)|
    {
      assert input[i..][1..] == input[i + 1..];
      if !IsSpace(input[i]) {
        n := n + 1;
      }
    }
  }

  /** base64_decode: the length written, or -1. */
  method Decode(input: Bytes, output: array<Byte>) returns (r: int)
    modifies output
    ensures -1 <= r <= output.Length
    ensures Decoded(input, output.Length) == if r < 0 then None else Some(output[..r])
  {
    hide DecodeFrom, IsSpace, Value, ShiftIn, ByteAbove, Strip;
    if output.Length == 0 {
      return -1;
    }
    var actual := CountCharacters(input);
    if actual * 3 / 4 > output.Length {
      return -1;
    }
    var j, bits := 0, 0;
    var accum: Uint32 := 0;
    for i := 0 to |input|
      invariant 0 <= j <= output.Length && BitCount(bits)
      invariant DecodeFrom(input, 0, 0, [], output.Length)
             == DecodeFrom(input[i..], accum, bits, output[..j], output.Length)
    {
      var c := input[i];
      assert input[i..][1..] == input[i + 1..];
      DecodeUnfolds(input[i..], accum, bits, output[..j], output.Length);
      if IsSpace(c) {
        continue;
      }
      if c == PAD {
        DecodeUnfolds(input[i..], accum, bits, output[..j], output.Length);
        return j;
      }
      var val := Value(c);
      if val == INVALID {
        return -1;
      }
      accum := ShiftIn(accum, val);
      bits := bits + 6;
      if bits >= 8 {
        bits := bits - 8;
        if j >= output.Length {
          return -1;
        }
        ghost var out := output[..j];
        output[j] := ByteAbove(accum, bits);
        j := j + 1;
        assert output[..j] == out + [ByteAbove(accum, bits)];
      }
    }
    DecodeUnfolds(input[|input|..], accum, bits, output[..j], output.Length);
    r := j;
  }
}
