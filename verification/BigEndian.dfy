/** Big-endian byte strings as numbers, the forms an mbedtls big number is written in. */
module BigEndian {
  import opened MachineIntegers
  import opened ModularPower

  function FromBytes(s: seq<Byte>): nat {
    if s == [] then 0 else 256 * FromBytes(s[..|s| - 1]) + s[|s| - 1]
  }

  /** The low `len` bytes of n; mbedtls_mpi_write_binary when they are all it has. */
  function ToBytes(n: nat, len: nat): (s: seq<Byte>)
    ensures |s| == len
  {
    if len == 0 then [] else ToBytes(n / 256, len - 1) + [n % 256]
  }

  /** mbedtls_mpi_size: zero for zero. */
  function Size(n: nat): nat {
    if n == 0 then 0 else 1 + Size(n / 256)
  }

  /** The shortest form, with a single zero byte for zero. */
  function MinBytes(n: nat): (s: seq<Byte>)
    ensures |s| >= 1
  {
    if n == 0 then [0] else ToBytes(n, Size(n))
  }

  function Zeros(len: nat): (s: seq<Byte>)
    ensures |s| == len && forall i :: 0 <= i < len ==> s[i] == 0
  {
    seq(len, _ => 0)
  }

  /** trim_leading_zeros keeps the last byte even when it is zero. */
  function Trim(s: seq<Byte>): seq<Byte> {
    if |s| > 1 && s[0] == 0 then Trim(s[1..]) else s
  }

  lemma {:induction false} SizeFits(n: nat, len: nat)
    ensures Size(n) <= len <==> n < Pow(256, len)
  {
    if n > 0 && len > 0 {
      SizeFits(n / 256, len - 1);
    } else if len > 0 {
      SizeFits(0, len - 1);
    }
  }

  lemma {:induction false} WritingKeepsValue(n: nat, len: nat)
    requires Size(n) <= len
    ensures FromBytes(ToBytes(n, len)) == n
  {
    if len > 0 {
      WritingKeepsValue(n / 256, len - 1);
      assert ToBytes(n, len)[..len - 1] == ToBytes(n / 256, len - 1);
    }
  }

  lemma {:induction false} ReadingKeepsBytes(s: seq<Byte>)
    ensures ToBytes(FromBytes(s), |s|) == s && FromBytes(s) < Pow(256, |s|)
  {
    if s != [] {
      ReadingKeepsBytes(s[..|s| - 1]);
      assert (256 * FromBytes(s[..|s| - 1]) + s[|s| - 1]) / 256 == FromBytes(s[..|s| - 1]);
      assert s[..|s| - 1] + [s[|s| - 1]] == s;
    }
  }

  /** Zeros in front change nothing. */
  lemma {:induction false} PaddingKeepsValue(zeros: nat, s: seq<Byte>)
    ensures FromBytes(Zeros(zeros) + s) == FromBytes(s)
  {
    var padded := Zeros(zeros) + s;
    if s != [] {
      PaddingKeepsValue(zeros, s[..|s| - 1]);
      assert padded[..|padded| - 1] == Zeros(zeros) + s[..|s| - 1];
    } else if zeros > 0 {
      PaddingKeepsValue(zeros - 1, s);
      assert padded[..|padded| - 1] == Zeros(zeros - 1) + s;
    }
  }

  /** Dropping bytes at the end keeps the number only if it is zero. */
  lemma {:induction false} CuttingLosesValue(s: seq<Byte>, t: seq<Byte>)
    requires t != []
    ensures FromBytes(s + t) >= FromBytes(s)
    ensures FromBytes(s + t) == FromBytes(s) <==> FromBytes(s + t) == 0
  {
    var init := t[..|t| - 1];
    assert (s + t)[..|s + t| - 1] == s + init;
    if init == [] {
      assert s + init == s;
    } else {
      CuttingLosesValue(s, init);
    }
  }

  /** Padding a number to `len` bytes is writing its own bytes after zeros. */
  lemma {:induction false} PaddedIsShifted(n: nat, len: nat)
    requires Size(n) <= len
    ensures ToBytes(n, len) == Zeros(len - Size(n)) + ToBytes(n, Size(n))
  {
    if n > 0 {
      PaddedIsShifted(n / 256, len - 1);
      var size := Size(n);
      assert ToBytes(n, size) == ToBytes(n / 256, size - 1) + [n % 256];
      assert ToBytes(n, len) == (Zeros(len - size) + ToBytes(n / 256, size - 1)) + [n % 256];
    } else if len > 0 {
      PaddedIsShifted(0, len - 1);
      assert ToBytes(0, len) == Zeros(len - 1) + [0];
      assert ToBytes(0, len) == Zeros(len);
    }
  }

  /** A string whose first byte is not zero has no shorter form. */
  lemma {:induction false} LeadingByteIsNeeded(s: seq<Byte>)
    requires s != [] && s[0] != 0
    ensures FromBytes(s) > 0 && Size(FromBytes(s)) == |s|
  {
    var init := s[..|s| - 1];
    if |s| > 1 {
      LeadingByteIsNeeded(init);
    }
    assert FromBytes(s) / 256 == FromBytes(init);
  }

  /** Trimming a byte string gives the shortest form of its number. */
  lemma {:induction false} TrimIsShortest(s: seq<Byte>)
    requires s != []
    ensures Trim(s) == MinBytes(FromBytes(s))
  {
    if |s| > 1 && s[0] == 0 {
      TrimIsShortest(s[1..]);
      assert s == Zeros(1) + s[1..];
      PaddingKeepsValue(1, s[1..]);
    } else if s[0] != 0 {
      LeadingByteIsNeeded(s);
      ReadingKeepsBytes(s);
    } else {
      assert s == [0];
    }
  }

  /** The pointer walk of trim_leading_zeros: what is left starts at `at`. */
  method TrimLeadingZeros(s: seq<Byte>) returns (at: nat, len: nat)
    requires s != []
    ensures at + len == |s| && s[at..] == Trim(s)
  {
    at, len := 0, |s|;
    while len > 1 && s[at] == 0
      invariant len >= 1 && at + len == |s| && Trim(s[at..]) == Trim(s)
      decreases len
    {
      assert s[at..][1..] == s[at + 1..];
      at, len := at + 1, len - 1;
    }
  }

  /** mpi_to_bytes_min */
  method WriteShortest(n: nat, buf: array<Byte>) returns (len: nat)
    modifies buf
    ensures len == if |MinBytes(n)| <= buf.Length then |MinBytes(n)| else 0
    ensures len > 0 ==> buf[..len] == MinBytes(n)
  {
    var size := Size(n);
    if size == 0 {
      if buf.Length < 1 {
        return 0;
      }
      buf[0] := 0;
      return 1;
    }
    if size > buf.Length {
      return 0;
    }
    var bytes := ToBytes(n, size);
    forall i | 0 <= i < size {
      buf[i] := bytes[i];
    }
    len := size;
  }

  /** mpi_to_bytes_padded */
  method WritePadded(n: nat, buf: array<Byte>) returns (ok: bool)
    modifies buf
    ensures ok <==> n < Pow(256, buf.Length)
    ensures ok ==> buf[..] == ToBytes(n, buf.Length)
    ensures !ok ==> buf[..] == old(buf[..])
  {
    SizeFits(n, buf.Length);
    var size := Size(n);
    if size > buf.Length {
      return false;
    }
    forall i | 0 <= i < buf.Length {
      buf[i] := 0;
    }
    var start, bytes := buf.Length - size, ToBytes(n, size);
    forall i | 0 <= i < size {
      buf[start + i] := bytes[i];
    }
    PaddedIsShifted(n, buf.Length);
    var padded := Zeros(start) + bytes;
    forall i | 0 <= i < buf.Length ensures buf[i] == padded[i] {
      assert i >= start ==> buf[start + (i - start)] == bytes[i - start];
    }
    assert buf[..] == padded;
    ok := true;
  }
}
