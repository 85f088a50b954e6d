/** Biphase mark code (IEC 60958-1, section 4.3), and the table that holds it for every byte. */
module SpdifCode {
  import opened MachineIntegers

  function Row0(): (r: seq<Uint16>)
    ensures |r| == 16
  {
    [0x3333, 0xb333, 0xd333, 0x5333, 0xcb33, 0x4b33, 0x2b33, 0xab33,
     0xcd33, 0x4d33, 0x2d33, 0xad33, 0x3533, 0xb533, 0xd533, 0x5533]
  }

  function Row1(): (r: seq<Uint16>)
    ensures |r| == 16
  {
    [0xccb3, 0x4cb3, 0x2cb3, 0xacb3, 0x34b3, 0xb4b3, 0xd4b3, 0x54b3,
     0x32b3, 0xb2b3, 0xd2b3, 0x52b3, 0xcab3, 0x4ab3, 0x2ab3, 0xaab3]
  }

  function Row2(): (r: seq<Uint16>)
    ensures |r| == 16
  {
    [0xccd3, 0x4cd3, 0x2cd3, 0xacd3, 0x34d3, 0xb4d3, 0xd4d3, 0x54d3,
     0x32d3, 0xb2d3, 0xd2d3, 0x52d3, 0xcad3, 0x4ad3, 0x2ad3, 0xaad3]
  }

  function Row3(): (r: seq<Uint16>)
    ensures |r| == 16
  {
    [0x3353, 0xb353, 0xd353, 0x5353, 0xcb53, 0x4b53, 0x2b53, 0xab53,
     0xcd53, 0x4d53, 0x2d53, 0xad53, 0x3553, 0xb553, 0xd553, 0x5553]
  }

  function Row4(): (r: seq<Uint16>)
    ensures |r| == 16
  {
    [0xcccb, 0x4ccb, 0x2ccb, 0xaccb, 0x34cb, 0xb4cb, 0xd4cb, 0x54cb,
     0x32cb, 0xb2cb, 0xd2cb, 0x52cb, 0xcacb, 0x4acb, 0x2acb, 0xaacb]
  }

  function Row5(): (r: seq<Uint16>)
    ensures |r| == 16
  {
    [0x334b, 0xb34b, 0xd34b, 0x534b, 0xcb4b, 0x4b4b, 0x2b4b, 0xab4b,
     0xcd4b, 0x4d4b, 0x2d4b, 0xad4b, 0x354b, 0xb54b, 0xd54b, 0x554b]
  }

  function Row6(): (r: seq<Uint16>)
    ensures |r| == 16
  {
    [0x332b, 0xb32b, 0xd32b, 0x532b, 0xcb2b, 0x4b2b, 0x2b2b, 0xab2b,
     0xcd2b, 0x4d2b, 0x2d2b, 0xad2b, 0x352b, 0xb52b, 0xd52b, 0x552b]
  }

  function Row7(): (r: seq<Uint16>)
    ensures |r| == 16
  {
    [0xccab, 0x4cab, 0x2cab, 0xacab, 0x34ab, 0xb4ab, 0xd4ab, 0x54ab,
     0x32ab, 0xb2ab, 0xd2ab, 0x52ab, 0xcaab, 0x4aab, 0x2aab, 0xaaab]
  }

  function Row8(): (r: seq<Uint16>)
    ensures |r| == 16
  {
    [0xcccd, 0x4ccd, 0x2ccd, 0xaccd, 0x34cd, 0xb4cd, 0xd4cd, 0x54cd,
     0x32cd, 0xb2cd, 0xd2cd, 0x52cd, 0xcacd, 0x4acd, 0x2acd, 0xaacd]
  }

  function Row9(): (r: seq<Uint16>)
    ensures |r| == 16
  {
    [0x334d, 0xb34d, 0xd34d, 0x534d, 0xcb4d, 0x4b4d, 0x2b4d, 0xab4d,
     0xcd4d, 0x4d4d, 0x2d4d, 0xad4d, 0x354d, 0xb54d, 0xd54d, 0x554d]
  }

  function RowA(): (r: seq<Uint16>)
    ensures |r| == 16
  {
    [0x332d, 0xb32d, 0xd32d, 0x532d, 0xcb2d, 0x4b2d, 0x2b2d, 0xab2d,
     0xcd2d, 0x4d2d, 0x2d2d, 0xad2d, 0x352d, 0xb52d, 0xd52d, 0x552d]
  }

  function RowB(): (r: seq<Uint16>)
    ensures |r| == 16
  {
    [0xccad, 0x4cad, 0x2cad, 0xacad, 0x34ad, 0xb4ad, 0xd4ad, 0x54ad,
     0x32ad, 0xb2ad, 0xd2ad, 0x52ad, 0xcaad, 0x4aad, 0x2aad, 0xaaad]
  }

  function RowC(): (r: seq<Uint16>)
    ensures |r| == 16
  {
    [0x3335, 0xb335, 0xd335, 0x5335, 0xcb35, 0x4b35, 0x2b35, 0xab35,
     0xcd35, 0x4d35, 0x2d35, 0xad35, 0x3535, 0xb535, 0xd535, 0x5535]
  }

  function RowD(): (r: seq<Uint16>)
    ensures |r| == 16
  {
    [0xccb5, 0x4cb5, 0x2cb5, 0xacb5, 0x34b5, 0xb4b5, 0xd4b5, 0x54b5,
     0x32b5, 0xb2b5, 0xd2b5, 0x52b5, 0xcab5, 0x4ab5, 0x2ab5, 0xaab5]
  }

  function RowE(): (r: seq<Uint16>)
    ensures |r| == 16
  {
    [0xccd5, 0x4cd5, 0x2cd5, 0xacd5, 0x34d5, 0xb4d5, 0xd4d5, 0x54d5,
     0x32d5, 0xb2d5, 0xd2d5, 0x52d5, 0xcad5, 0x4ad5, 0x2ad5, 0xaad5]
  }

  function RowF(): (r: seq<Uint16>)
    ensures |r| == 16
  {
    [0x3355, 0xb355, 0xd355, 0x5355, 0xcb55, 0x4b55, 0x2b55, 0xab55,
     0xcd55, 0x4d55, 0x2d55, 0xad55, 0x3555, 0xb555, 0xd555, 0x5555]
  }

  function Row(i: nat): (r: seq<Uint16>)
    requires i < 16
    ensures |r| == 16
  {
    if i == 0 then Row0()
    else if i == 1 then Row1()
    else if i == 2 then Row2()
    else if i == 3 then Row3()
    else if i == 4 then Row4()
    else if i == 5 then Row5()
    else if i == 6 then Row6()
    else if i == 7 then Row7()
    else if i == 8 then Row8()
    else if i == 9 then Row9()
    else if i == 10 then RowA()
    else if i == 11 then RowB()
    else if i == 12 then RowC()
    else if i == 13 then RowD()
    else if i == 14 then RowE()
    else RowF()
  }

  /** bmc_tab: the code of a byte as a half word. */
  function Code(b: Byte): Uint16 {
    Row(b / 16)[b % 16]
  }

  /** The bits of a nibble, a byte and a sample in sending order, least significant first. */
  function NibbleBits(n: nat): (r: seq<bool>)
    ensures |r| == 4
  {
    [n % 2 == 1, n / 2 % 2 == 1, n / 4 % 2 == 1, n / 8 % 2 == 1]
  }

  function ByteBits(b: Byte): (r: seq<bool>)
    ensures |r| == 8
  {
    NibbleBits(b % 16) + NibbleBits(b / 16)
  }

  function SampleBits(lo: Byte, hi: Byte): (r: seq<bool>)
    ensures |r| == 16
  {
    ByteBits(lo) + ByteBits(hi)
  }

  /** Two levels a bit: the line always changes where a bit begins, and once more inside a one. */
  ghost predicate IsBiphase(levels: seq<bool>, data: seq<bool>, before: bool) {
    && |levels| == 2 * |data|
    && forall i :: 0 <= i < |data| ==>
         && levels[2 * i] != (if i == 0 then before else levels[2 * i - 1])
         && (levels[2 * i + 1] != levels[2 * i] <==> data[i])
  }

  /** The levels for `data` when the last one is to be `end`. */
  function Mark(data: seq<bool>, end: bool): (levels: seq<bool>)
    ensures |levels| == 2 * |data|
  {
    if data == [] then []
    else
      var first := if data[|data| - 1] then !end else end;
      Mark(data[..|data| - 1], !first) + [first, end]
  }

  /** Levels as a number, the first sent being the most significant bit. */
  function Number(levels: seq<bool>): nat {
    if levels == [] then 0 else 2 * Number(levels[..|levels| - 1]) + if levels[|levels| - 1] then 1 else 0
  }

  function Flip(levels: seq<bool>): (r: seq<bool>)
    ensures |r| == |levels|
  {
    seq(|levels|, i requires 0 <= i < |levels| => !levels[i])
  }

  function Power2(n: nat): nat {
    if n == 0 then 1 else 2 * Power2(n - 1)
  }

  lemma {:induction false} NumberAppends(a: seq<bool>, b: seq<bool>)
    ensures Number(a + b) == Number(a) * Power2(|b|) + Number(b)
  {
    if b == [] {
      assert a + b == a;
    } else {
      NumberAppends(a, b[..|b| - 1]);
      assert (a + b)[..|a + b| - 1] == a + b[..|b| - 1];
      assert Number(a) * (2 * Power2(|b| - 1)) == 2 * (Number(a) * Power2(|b| - 1));
    }
  }

  lemma {:induction false} NumberFlips(levels: seq<bool>)
    ensures Number(Flip(levels)) + Number(levels) == Power2(|levels|) - 1
  {
    if levels != [] {
      NumberFlips(levels[..|levels| - 1]);
      assert Flip(levels)[..|levels| - 1] == Flip(levels[..|levels| - 1]);
    }
  }

  lemma {:induction false} MarkFlips(data: seq<bool>, end: bool)
    ensures Mark(data, !end) == Flip(Mark(data, end))
  {
    if data != [] {
      MarkFlips(data[..|data| - 1], if data[|data| - 1] then end else !end);
    }
  }

  /** Coded in two parts, the first must end opposite to where the second begins. */
  lemma {:induction false} MarkAppends(a: seq<bool>, b: seq<bool>, end: bool)
    requires b != []
    ensures Mark(a + b, end) == Mark(a, !Mark(b, end)[0]) + Mark(b, end)
  {
    var init := b[..|b| - 1];
    assert (a + b)[..|a + b| - 1] == a + init;
    if init == [] {
      assert a + init == a;
    } else {
      MarkAppends(a, init, if b[|b| - 1] then end else !end);
    }
  }

  /** Mark is the biphase code of its data. */
  lemma {:induction false} MarkIsBiphase(data: seq<bool>, end: bool)
    requires data != []
    ensures IsBiphase(Mark(data, end), data, !Mark(data, end)[0]) && Mark(data, end)[2 * |data| - 1] == end
  {
    var init, levels := data[..|data| - 1], Mark(data, end);
    if init != [] {
      var first := if data[|data| - 1] then !end else end;
      MarkIsBiphase(init, !first);
      assert levels[..2 * |init|] == Mark(init, !first);
      forall i | 0 <= i < |data|
        ensures levels[2 * i] != (if i == 0 then !levels[0] else levels[2 * i - 1])
        ensures levels[2 * i + 1] != levels[2 * i] <==> data[i]
      {
        if i < |init| {
          assert init[i] == data[i];
        }
      }
    }
  }

  /** And there is no other that ends the same way. */
  lemma {:induction false} BiphaseIsMark(levels: seq<bool>, data: seq<bool>, before: bool)
    requires data != [] && IsBiphase(levels, data, before)
    ensures levels == Mark(data, levels[|levels| - 1])
  {
    var n := |data| - 1;
    var init, end := levels[..2 * n], levels[2 * n + 1];
    assert data[n] <==> levels[2 * n] != end;
    assert levels == init + [levels[2 * n], end];
    if n > 0 {
      assert IsBiphase(init, data[..n], before);
      assert init[2 * n - 1] == levels[2 * n - 1];
      BiphaseIsMark(init, data[..n], before);
    }
  }

  /** The codes of the sixteen nibbles. */
  function NibbleCodes(): (r: seq<Byte>)
    ensures |r| == 16
  {
    [0x33, 0xb3, 0xd3, 0x53, 0xcb, 0x4b, 0x2b, 0xab,
     0xcd, 0x4d, 0x2d, 0xad, 0x35, 0xb5, 0xd5, 0x55]
  }

  function NibbleCode(n: nat): Byte
    requires n < 16
  {
    NibbleCodes()[n]
  }

  /** Two nibble codes joined: the first is inverted when the second begins high. */
  function Joined(low: Byte, high: Byte): Uint16 {
    (if high >= 0x80 then 0xFF - low else low) * 0x100 + high
  }

  function Weight(level: bool, weight: nat): nat {
    if level then weight else 0
  }

  lemma FourBits(a: bool, b: bool, c: bool, d: bool)
    ensures
      var f := d != c;
      var g := !f != b;
      var h := !g != a;
      Mark([a, b, c, d], true) == [h, !g, g, !f, f, d, !d, true]
  {
    hide Mark;
    var f := d != c;
    var g := !f != b;
    MarkOfLast([a, b, c], d, true, [a, b, c, d]);
    MarkOfLast([a, b], c, d, [a, b, c]);
    MarkOfLast([a], b, !f, [a, b]);
    MarkOfLast([], a, !g, [a]);
  }

  lemma EightLevels(a: bool, b: bool, c: bool, d: bool, e: bool, f: bool, g: bool, h: bool)
    ensures Number([a, b, c, d, e, f, g, h])
         == Weight(a, 0x80) + Weight(b, 0x40) + Weight(c, 0x20) + Weight(d, 0x10)
          + Weight(e, 8) + Weight(f, 4) + Weight(g, 2) + Weight(h, 1)
  {
    hide Number;
    NumberOfLast([], a, [a]);
    NumberOfLast([a], b, [a, b]);
    NumberOfLast([a, b], c, [a, b, c]);
    NumberOfLast([a, b, c], d, [a, b, c, d]);
    NumberOfLast([a, b, c, d], e, [a, b, c, d, e]);
    NumberOfLast([a, b, c, d, e], f, [a, b, c, d, e, f]);
    NumberOfLast([a, b, c, d, e, f], g, [a, b, c, d, e, f, g]);
    NumberOfLast([a, b, c, d, e, f, g], h, [a, b, c, d, e, f, g, h]);
  }

  lemma NumberOfLast(init: seq<bool>, last: bool, all: seq<bool>)
    requires all == init + [last]
    ensures Number(all) == 2 * Number(init) + Weight(last, 1) && Number([]) == 0
  {
    assert all[..|init|] == init;
  }

  lemma MarkOfLast(init: seq<bool>, last: bool, end: bool, all: seq<bool>)
    requires all == init + [last]
    ensures var first := if last then !end else end; Mark(all, end) == Mark(init, !first) + [first, end]
    ensures Mark([], end) == []
  {
    assert all[..|init|] == init;
  }

  lemma NibbleIsMark(n: nat)
    requires n < 16
    ensures Number(Mark(NibbleBits(n), true)) == NibbleCode(n)
    ensures Mark(NibbleBits(n), true)[0] <==> NibbleCode(n) >= 0x80
  {
    hide Mark, Number;
    var a, b, c, d := n % 2 == 1, n / 2 % 2 == 1, n / 4 % 2 == 1, n / 8 % 2 == 1;
    FourBits(a, b, c, d);
    var m := Mark([a, b, c, d], true);
    EightLevels(m[0], m[1], m[2], m[3], m[4], m[5], m[6], m[7]);
  }

  lemma RowsFrom0(h: nat)
    requires h < 4
    ensures forall l :: 0 <= l < 16 ==> Row(h)[l] == Joined(NibbleCode(l), NibbleCode(h))
  {
  }

  lemma RowsFrom4(h: nat)
    requires 4 <= h < 8
    ensures forall l :: 0 <= l < 16 ==> Row(h)[l] == Joined(NibbleCode(l), NibbleCode(h))
  {
  }

  lemma RowsFrom8(h: nat)
    requires 8 <= h < 12
    ensures forall l :: 0 <= l < 16 ==> Row(h)[l] == Joined(NibbleCode(l), NibbleCode(h))
  {
  }

  lemma RowsFromC(h: nat)
    requires 12 <= h < 16
    ensures forall l :: 0 <= l < 16 ==> Row(h)[l] == Joined(NibbleCode(l), NibbleCode(h))
  {
  }

  /** The whole table is built from the nibble codes. */
  lemma {:induction false} TableIsJoined(b: Byte)
    ensures Code(b) == Joined(NibbleCode(b % 16), NibbleCode(b / 16))
  {
    hide Row, NibbleCode, Joined;
    var h := b / 16;
    if h < 4 {
      RowsFrom0(h);
    } else if h < 8 {
      RowsFrom4(h);
    } else if h < 12 {
      RowsFrom8(h);
    } else {
      RowsFromC(h);
    }
  }

  /** Two codes that end high join into the code of their data in a row. */
  lemma {:induction false} MarkJoins(a: seq<bool>, b: seq<bool>)
    requires b != []
    ensures var low, high, size := Number(Mark(a, true)), Number(Mark(b, true)), Power2(2 * |a|);
      Number(Mark(a + b, true)) == (if Mark(b, true)[0] then size - 1 - low else low) * Power2(2 * |b|) + high
    ensures a != [] ==> (Mark(a + b, true)[0] <==> Mark(a, true)[0] != Mark(b, true)[0])
  {
    hide Mark, Number;
    MarkAppends(a, b, true);
    MarkFlips(a, true);
    NumberFlips(Mark(a, true));
    NumberAppends(Mark(a, !Mark(b, true)[0]), Mark(b, true));
  }

  /** Every table entry is the biphase code of its byte, ending high. */
  lemma TableIsMark(b: Byte)
    ensures Number(Mark(ByteBits(b), true)) == Code(b)
    ensures Mark(ByteBits(b), true)[0] <==> Code(b) >= 0x8000
  {
    hide Mark, Number, NibbleCode, NibbleBits, Code;
    TableIsJoined(b);
    NibbleIsMark(b % 16);
    NibbleIsMark(b / 16);
    MarkJoins(NibbleBits(b % 16), NibbleBits(b / 16));
    Powers();
  }

  // The data word of a sample.

  /** Low byte in the upper half, high byte in the lower. The XOR with the sign-extended second code
      inverts the first where the second begins high; then the top bit is cleared. */
  function DataWord(lo: Byte, hi: Byte): Uint32 {
    ((if Code(hi) >= 0x8000 then 0xFFFF - Code(lo) else Code(lo)) * 0x1_0000 + Code(hi)) % 0x8000_0000
  }

  function Ones(data: seq<bool>): nat {
    if data == [] then 0 else Ones(data[..|data| - 1]) + if data[|data| - 1] then 1 else 0
  }

  /** The data with its first bit, the least significant of the sample, replaced by the parity of the
      others. */
  function EvenParity(data: seq<bool>): (r: seq<bool>)
    requires data != []
    ensures |r| == |data|
  {
    [Ones(data[1..]) % 2 == 1] + data[1..]
  }

  lemma {:induction false} OnesFromFront(first: bool, rest: seq<bool>)
    ensures Ones([first] + rest) == Ones(rest) + if first then 1 else 0
  {
    var all := [first] + rest;
    if rest == [] {
      assert all[..0] == [];
    } else {
      OnesFromFront(first, rest[..|rest| - 1]);
      assert all[..|all| - 1] == [first] + rest[..|rest| - 1];
    }
  }

  /** The line changes once between bits and once inside each one. */
  lemma {:induction false} FirstLevel(data: seq<bool>, end: bool)
    requires data != []
    ensures Mark(data, end)[0] != end <==> (|data| - 1 + Ones(data)) % 2 == 1
  {
    var init := data[..|data| - 1];
    if init != [] {
      FirstLevel(init, if data[|data| - 1] then end else !end);
    }
  }

  /** The first data bit shows only in the first level. */
  lemma FirstBitIsLocal(a: bool, b: bool, rest: seq<bool>, end: bool)
    ensures Mark([a] + rest, end)[1..] == Mark([b] + rest, end)[1..]
  {
    if rest == [] {
      MarkOfLast([], a, end, [a] + rest);
      MarkOfLast([], b, end, [b] + rest);
    } else {
      var next := !Mark(rest, end)[0];
      MarkAppends([a], rest, end);
      MarkAppends([b], rest, end);
      MarkOfLast([], a, next, [a]);
      MarkOfLast([], b, next, [b]);
    }
  }

  lemma {:induction false} NumberFits(levels: seq<bool>)
    ensures Number(levels) < Power2(|levels|)
  {
    if levels != [] {
      NumberFits(levels[..|levels| - 1]);
    }
  }

  lemma ClearsTopBit(levels: seq<bool>)
    requires |levels| == 32
    ensures Number(levels) % 0x8000_0000 == Number([false] + levels[1..])
  {
    hide Number;
    var rest := levels[1..];
    NumberAppends([levels[0]], rest);
    NumberAppends([false], rest);
    NumberFits(rest);
    Powers();
    assert levels == [levels[0]] + rest;
    NumberOfLast([], levels[0], [levels[0]]);
    NumberOfLast([], false, [false]);
  }

  /** Even parity is what lets the code begin low, and the rest of it is that of the sample. */
  lemma {:induction false} ParityStartsLow(bits: seq<bool>)
    requires |bits| == 16
    ensures var data := EvenParity(bits);
      Mark(data, true) == [false] + Mark(bits, true)[1..] && Ones(data) % 2 == 0
  {
    hide Mark, Ones;
    var data, rest := EvenParity(bits), bits[1..];
    assert bits == [bits[0]] + rest;
    OnesFromFront(data[0], rest);
    FirstLevel(data, true);
    FirstBitIsLocal(bits[0], data[0], rest, true);
    var m := Mark(data, true);
    assert m == [m[0]] + m[1..];
  }

  lemma Powers()
    ensures Power2(8) == 0x100 && Power2(16) == 0x1_0000 && Power2(31) == 0x8000_0000
  {
    Doubles(4);
    Doubles(8);
    Doubles(16);
    assert Power2(32) == 2 * Power2(31);
  }

  lemma {:induction false} Doubles(n: nat)
    ensures Power2(2 * n) == Power2(n) * Power2(n)
  {
    if n > 0 {
      Doubles(n - 1);
      var p := Power2(n - 1);
      assert (2 * p) * (2 * p) == 4 * (p * p);
    }
  }

  /** A word is the biphase code, after a preamble that ends high and ending high itself, of the
      sample whose lowest bit has given way to even parity. */
  lemma WordIsSampleWithParity(lo: Byte, hi: Byte)
    ensures var data := EvenParity(SampleBits(lo, hi));
      && DataWord(lo, hi) == Number(Mark(data, true))
      && IsBiphase(Mark(data, true), data, true) && Mark(data, true)[31]
      && Ones(data) % 2 == 0
  {
    hide Mark, Number, ByteBits, Code, Ones, IsBiphase;
    var bits := SampleBits(lo, hi);
    var data := EvenParity(bits);
    TableIsMark(lo);
    TableIsMark(hi);
    MarkJoins(ByteBits(lo), ByteBits(hi));
    Powers();
    assert Number(Mark(bits, true)) % 0x8000_0000 == DataWord(lo, hi);
    ParityStartsLow(bits);
    ClearsTopBit(Mark(bits, true));
    MarkIsBiphase(data, true);
  }
}
