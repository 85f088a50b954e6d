/** TLV8 items: a type byte, a length byte and at most 255 bytes of value; longer values run over
    several items of the same type. */
module Tlv8 {
  import opened MachineIntegers
  import opened Wrappers

  type Bytes = seq<Byte>

  const MAX_CHUNK := 255

  datatype Item = Item(kind: Byte, value: Bytes)

  function Chunk(value: Bytes): (c: Bytes)
    ensures |c| <= MAX_CHUNK && c <= value && (value != [] ==> c != [])
  {
    if |value| > MAX_CHUNK then value[..MAX_CHUNK] else value
  }

  /** One fragment on the wire. */
  function Fragment(kind: Byte, chunk: Bytes): Bytes
    requires |chunk| <= MAX_CHUNK
  {
    [kind, |chunk|] + chunk
  }

  /** The fragments of a value that is not empty; nothing for one that is. */
  function Fragments(kind: Byte, value: Bytes): Bytes
    decreases |value|
  {
    if value == [] then [] else Fragment(kind, Chunk(value)) + Fragments(kind, value[|Chunk(value)|..])
  }

  /** The wire form of an item; an empty value still takes one fragment. */
  function Encoded(kind: Byte, value: Bytes): Bytes {
    Fragment(kind, Chunk(value)) + Fragments(kind, value[|Chunk(value)|..])
  }

  function EncodedAll(items: seq<Item>): Bytes {
    if items == [] then [] else Encoded(items[0].kind, items[0].value) + EncodedAll(items[1..])
  }

  /** Encoding one more item appends its wire form. */
  lemma {:induction false} EncodedAllAppends(items: seq<Item>, item: Item)
    ensures EncodedAll(items + [item]) == EncodedAll(items) + Encoded(item.kind, item.value)
  {
    hide Encoded;
    if items == [] {
      assert EncodedAll([item]) == Encoded(item.kind, item.value) + EncodedAll([]);
    } else {
      EncodedAllAppends(items[1..], item);
      assert (items + [item])[1..] == items[1..] + [item];
      Regroup(Encoded(items[0].kind, items[0].value), EncodedAll(items[1..]), Encoded(item.kind, item.value));
    }
  }

  /** How much of the fragments goes into `room` bytes: whole fragments, until one does not fit. */
  function Fitting(kind: Byte, value: Bytes, room: nat): (b: Bytes)
    ensures |b| <= room && b <= Fragments(kind, value)
    decreases |value|
  {
    if value == [] || 2 + |Chunk(value)| > room then []
    else Fragment(kind, Chunk(value)) + Fitting(kind, value[|Chunk(value)|..], room - 2 - |Chunk(value)|)
  }

  /** What goes in is every fragment, or as many whole ones as leave too little room for the next. */
  lemma {:induction false} FittingIsMost(kind: Byte, value: Bytes, room: nat)
    ensures var n := |Fitting(kind, value, room)|;
      var left := |value| - n / 257 * 255;
      Fitting(kind, value, room) == Fragments(kind, value)
      || (n % 257 == 0 && left > 0 && n + 2 + (if left > 255 then 255 else left) > room)
    decreases |value|
  {
    if value != [] && 2 + |Chunk(value)| <= room {
      FittingIsMost(kind, value[|Chunk(value)|..], room - 2 - |Chunk(value)|);
    }
  }

  /** The bytes a value takes: itself and two for each started 255 bytes, at least once. */
  lemma {:induction false} EncodedSize(kind: Byte, value: Bytes)
    ensures |Encoded(kind, value)| == |value| + 2 * (if value == [] then 1 else (|value| + MAX_CHUNK - 1) / MAX_CHUNK)
    decreases |value|
  {
    if |value| > MAX_CHUNK {
      EncodedSize(kind, value[MAX_CHUNK..]);
    }
  }

  /** Where everything is: every 257 bytes a header, the type and what is left of the value up to 255, and
      behind header i the bytes of the value from 255 i on. */
  lemma {:induction false} EncodedLayout(kind: Byte, value: Bytes, i: nat, k: nat)
    requires k < 255 && 255 * i + k < |value|
    ensures var e, left := Encoded(kind, value), |value| - 255 * i;
      && 257 * i + 2 + k < |e| && e[257 * i + 2 + k] == value[255 * i + k]
      && e[257 * i] == kind && e[257 * i + 1] == if left > 255 then 255 else left
    decreases i
  {
    hide Encoded, Fragment, Fragments, Chunk;
    var e := Encoded(kind, value);
    if i == 0 {
      FirstFragment(kind, value);
      assert k < |value| && e[2..][k] == e[2 + k];
    } else {
      var rest := value[255..];
      EncodedLayout(kind, rest, i - 1, k);
      LongerValue(kind, value);
      var head, tail, at := Fragment(kind, value[..255]), Encoded(kind, rest), 257 * (i - 1);
      assert (head + tail)[257 + (at + 2 + k)] == tail[at + 2 + k];
      assert (head + tail)[257 + at] == tail[at] && (head + tail)[257 + (at + 1)] == tail[at + 1];
      assert rest[255 * (i - 1) + k] == value[255 * i + k];
    }
  }

  lemma FirstFragment(kind: Byte, value: Bytes)
    requires value != []
    ensures var e, n := Encoded(kind, value), if |value| > 255 then 255 else |value|;
      |e| >= 2 + n && e[0] == kind && e[1] == n && e[2..2 + n] == value[..n]
  {
  }

  lemma LongerValue(kind: Byte, value: Bytes)
    requires |value| > 255
    ensures Encoded(kind, value) == Fragment(kind, value[..255]) + Encoded(kind, value[255..])
    ensures |Fragment(kind, value[..255])| == 257
  {
  }

  datatype Decoded = TooSmall | Decoded(found: bool, value: Bytes)

  /** The length of the well-formed fragment at the front, if there is one. */
  function Whole(data: Bytes): Option<nat> {
    if |data| >= 2 && |data| >= 2 + (data[1] as int) then Some(2 + (data[1] as int)) else None
  }

  /** tlv8_decode_concat from some point on, with `got` collected so far. */
  function DecodeFrom(data: Bytes, kind: Byte, capacity: nat, found: bool, got: Bytes): Decoded
    decreases |data|
  {
    match Whole(data)
    case None => Decoded(found, got)
    case Some(n) =>
      if data[0] == kind then
        if |got| + (n - 2) > capacity then TooSmall
        else DecodeFrom(data[n..], kind, capacity, true, got + data[2..n])
      else if found then Decoded(true, got)
      else DecodeFrom(data[n..], kind, capacity, false, got)
  }

  /** tlv8_find from some point on: the first fragment of the type. */
  function FindFrom(data: Bytes, kind: Byte): Option<Bytes>
    decreases |data|
  {
    match Whole(data)
    case None => None
    case Some(n) => if data[0] == kind then Some(data[2..n]) else FindFrom(data[n..], kind)
  }

  /** The values of the first run of items of the type, joined. */
  function FirstRun(items: seq<Item>, kind: Byte): Option<Bytes> {
    if items == [] then None
    else if items[0].kind == kind then Some(Run(items, kind))
    else FirstRun(items[1..], kind)
  }

  function Run(items: seq<Item>, kind: Byte): Bytes {
    if items == [] || items[0].kind != kind then [] else items[0].value + Run(items[1..], kind)
  }

  lemma FragmentIsWhole(kind: Byte, chunk: Bytes, tail: Bytes)
    requires |chunk| <= MAX_CHUNK
    ensures var d := Fragment(kind, chunk) + tail;
      Whole(d) == Some(2 + |chunk|) && d[0] == kind && d[2..2 + |chunk|] == chunk && d[2 + |chunk|..] == tail
  {
    var d := Fragment(kind, chunk) + tail;
    assert d[1] == |chunk|;
    assert d[2..2 + |chunk|] == chunk;
  }

  /** What the decoders do with a fragment at the front. */
  lemma OneStep(other: Byte, chunk: Bytes, tail: Bytes, kind: Byte, capacity: nat, found: bool, got: Bytes)
    requires |chunk| <= MAX_CHUNK
    ensures DecodeFrom(Fragment(other, chunk) + tail, kind, capacity, found, got) ==
      if other == kind then
        if |got| + |chunk| > capacity then TooSmall else DecodeFrom(tail, kind, capacity, true, got + chunk)
      else if found then Decoded(true, got)
      else DecodeFrom(tail, kind, capacity, false, got)
    ensures FindFrom(Fragment(other, chunk) + tail, kind) == if other == kind then Some(chunk) else FindFrom(tail, kind)
  {
    hide Whole, Fragment;
    FragmentIsWhole(other, chunk, tail);
  }

  lemma Regroup(a: Bytes, b: Bytes, c: Bytes)
    ensures a + (b + c) == (a + b) + c
  {
  }

  /** The decoder takes up all the fragments of a value of its type. */
  lemma {:induction false} TakesFragments(kind: Byte, value: Bytes, tail: Bytes, capacity: nat, got: Bytes)
    requires |got| <= capacity
    ensures DecodeFrom(Fragments(kind, value) + tail, kind, capacity, true, got)
         == if |got| + |value| > capacity then TooSmall else DecodeFrom(tail, kind, capacity, true, got + value)
    decreases |value|
  {
    hide DecodeFrom, Fragment, Chunk;
    if value == [] {
      assert Fragments(kind, value) + tail == tail && got + value == got;
    } else {
      TakesItem(kind, value, tail, capacity, true, got);
      assert Fragments(kind, value) == Encoded(kind, value);
    }
  }

  lemma {:induction false} TakesItem(kind: Byte, value: Bytes, tail: Bytes, capacity: nat, found: bool, got: Bytes)
    requires |got| <= capacity
    ensures DecodeFrom(Encoded(kind, value) + tail, kind, capacity, found, got)
         == if |got| + |value| > capacity then TooSmall else DecodeFrom(tail, kind, capacity, true, got + value)
    decreases |value|, 0
  {
    hide DecodeFrom, Fragment, Fragments;
    var c := Chunk(value);
    var rest := value[|c|..];
    Regroup(Fragment(kind, c), Fragments(kind, rest), tail);
    OneStep(kind, c, Fragments(kind, rest) + tail, kind, capacity, found, got);
    if |got| + |c| <= capacity {
      if value == [] {
        NoFragments(kind, tail);
        assert got + c == got + value;
      } else {
        TakesFragments(kind, rest, tail, capacity, got + c);
        assert (got + c) + rest == got + value;
      }
    }
  }

  /** Less than a header, or a header that announces more than there is. */
  predicate CutOff(tail: Bytes) {
    |tail| < 2 || |tail| < 2 + tail[1] as int
  }

  lemma NothingDecodes(tail: Bytes, kind: Byte, capacity: nat, found: bool, got: Bytes)
    requires CutOff(tail)
    ensures DecodeFrom(tail, kind, capacity, found, got) == Decoded(found, got)
    ensures FindFrom(tail, kind) == None
  {
  }

  lemma NoFragments(kind: Byte, tail: Bytes)
    ensures Fragments(kind, []) + tail == tail
  {
  }

  /** Items of other types are passed over until the type is found. */
  lemma {:induction false} SkipsItem(other: Byte, value: Bytes, tail: Bytes, kind: Byte, capacity: nat)
    requires other != kind
    ensures DecodeFrom(Encoded(other, value) + tail, kind, capacity, false, [])
         == DecodeFrom(tail, kind, capacity, false, [])
    ensures FindFrom(Encoded(other, value) + tail, kind) == FindFrom(tail, kind)
    decreases |value|
  {
    hide DecodeFrom, FindFrom, Fragment;
    var c := Chunk(value);
    var rest := value[|c|..];
    Regroup(Fragment(other, c), Fragments(other, rest), tail);
    OneStep(other, c, Fragments(other, rest) + tail, kind, capacity, false, []);
    if rest == [] {
      NoFragments(other, tail);
    } else {
      SkipsItem(other, rest, tail, kind, capacity);
      assert Fragments(other, rest) == Encoded(other, rest);
    }
  }

  /** Once found, an item of another type ends the run. */
  lemma StopsAt(items: seq<Item>, tail: Bytes, kind: Byte, capacity: nat, got: Bytes)
    requires CutOff(tail) && (items == [] || items[0].kind != kind)
    ensures DecodeFrom(EncodedAll(items) + tail, kind, capacity, true, got) == Decoded(true, got)
  {
    hide DecodeFrom, Fragment, Fragments;
    if items == [] {
      assert EncodedAll(items) + tail == tail;
      NothingDecodes(tail, kind, capacity, true, got);
    } else {
      var k, v, rest := items[0].kind, items[0].value, EncodedAll(items[1..]);
      var more := Fragments(k, v[|Chunk(v)|..]);
      FirstItem(items, tail);
      Regroup(Fragment(k, Chunk(v)), more, rest + tail);
      OneStep(k, Chunk(v), more + (rest + tail), kind, capacity, true, got);
    }
  }

  lemma FirstItem(items: seq<Item>, tail: Bytes)
    requires items != []
    ensures EncodedAll(items) + tail == Encoded(items[0].kind, items[0].value) + (EncodedAll(items[1..]) + tail)
  {
    hide Encoded;
  }

  lemma {:induction false} DecodesRun(items: seq<Item>, tail: Bytes, kind: Byte, capacity: nat, got: Bytes)
    requires |got| <= capacity && CutOff(tail)
    ensures DecodeFrom(EncodedAll(items) + tail, kind, capacity, true, got)
         == if |got| + |Run(items, kind)| > capacity then TooSmall else Decoded(true, got + Run(items, kind))
  {
    hide DecodeFrom, Encoded, EncodedAll;
    if items == [] || items[0].kind != kind {
      StopsAt(items, tail, kind, capacity, got);
      assert got + [] == got;
    } else {
      var v := items[0].value;
      FirstItem(items, tail);
      TakesItem(kind, v, EncodedAll(items[1..]) + tail, capacity, true, got);
      if |got| + |v| <= capacity {
        DecodesRun(items[1..], tail, kind, capacity, got + v);
        Regroup(got, v, Run(items[1..], kind));
      }
    }
  }

  /** Decoding any list of encoded items, whatever cut-off item follows it, gives the joined values of the
      first run of the wanted type, provided they fit; a list without the type gives nothing. */
  lemma {:induction false} DecodesFirstRun(items: seq<Item>, tail: Bytes, kind: Byte, capacity: nat)
    requires CutOff(tail)
    ensures DecodeFrom(EncodedAll(items) + tail, kind, capacity, false, [])
         == match FirstRun(items, kind)
            case None => Decoded(false, [])
            case Some(v) => if |v| > capacity then TooSmall else Decoded(true, v)
  {
    hide Encoded, DecodeFrom;
    if items == [] {
      assert EncodedAll(items) + tail == tail;
      NothingDecodes(tail, kind, capacity, false, []);
    } else {
      hide EncodedAll;
      FirstItem(items, tail);
      if items[0].kind == kind {
        var v := items[0].value;
        TakesItem(kind, v, EncodedAll(items[1..]) + tail, capacity, false, []);
        if |v| <= capacity {
          assert [] + v == v;
          DecodesRun(items[1..], tail, kind, capacity, v);
        }
      } else {
        SkipsItem(items[0].kind, items[0].value, EncodedAll(items[1..]) + tail, kind, capacity);
        DecodesFirstRun(items[1..], tail, kind, capacity);
      }
    }
  }

  /** Neighbours differ in type. */
  ghost predicate Separated(items: seq<Item>) {
    forall i :: 0 <= i < |items| - 1 ==> items[i].kind != items[i + 1].kind
  }

  /** The round trip: when neighbours differ, the first item of the type comes back exactly, whatever
      its length, and tlv8_find gives its first 255 bytes. */
  lemma {:induction false} FirstValueComesBack(items: seq<Item>, k: nat, capacity: nat)
    requires k < |items| && Separated(items) && forall i :: 0 <= i < k ==> items[i].kind != items[k].kind
    ensures DecodeFrom(EncodedAll(items), items[k].kind, capacity, false, [])
         == if |items[k].value| > capacity then TooSmall else Decoded(true, items[k].value)
    ensures FindFrom(EncodedAll(items), items[k].kind) == Some(Chunk(items[k].value))
  {
    hide DecodeFrom, FindFrom, Fragment, Fragments;
    if k == 0 {
      var v, tail := items[0].value, EncodedAll(items[1..]);
      DecodesFirstRun(items, [], items[0].kind, capacity);
      assert EncodedAll(items) + [] == EncodedAll(items);
      assert Run(items[1..], items[0].kind) == [] by {
        assert items[1..] != [] ==> items[1..][0] == items[1];
      }
      assert v + [] == v;
      var more := Fragments(items[0].kind, v[|Chunk(v)|..]);
      Regroup(Fragment(items[0].kind, Chunk(v)), more, tail);
      OneStep(items[0].kind, Chunk(v), more + tail, items[0].kind, capacity, false, []);
    } else {
      SkipsItem(items[0].kind, items[0].value, EncodedAll(items[1..]), items[k].kind, capacity);
      assert forall i :: 0 <= i < |items| - 1 ==> items[1..][i] == items[i + 1];
      FirstValueComesBack(items[1..], k - 1, capacity);
    }
  }

  /** The encoder stands at `offset` of the value, with `done` written of the `room` it had. */
  ghost predicate Encoding(kind: Byte, value: Bytes, offset: nat, done: Bytes, room: nat) {
    && offset <= |value| && |done| <= room
    && done + Fragments(kind, value[offset..]) == Fragments(kind, value)
    && done + Fitting(kind, value[offset..], room - |done|) == Fitting(kind, value, room)
  }

  lemma EncodingStarts(kind: Byte, value: Bytes, room: nat)
    ensures Encoding(kind, value, 0, [], room)
  {
    assert value[0..] == value;
  }

  lemma {:induction false} Unfolds(kind: Byte, rest: Bytes, room: nat)
    ensures var c := Chunk(rest);
      && |Fragment(kind, c)| == 2 + |c|
      && Encoded(kind, rest) == Fragment(kind, c) + Fragments(kind, rest[|c|..])
      && (if rest == [] then Encoded(kind, rest) == Fragment(kind, c) else Fragments(kind, rest) == Encoded(kind, rest))
      && Fitting(kind, rest, room) ==
           if rest == [] || 2 + |c| > room then [] else Fragment(kind, c) + Fitting(kind, rest[|c|..], room - 2 - |c|)
  {
  }

  /** One more fragment, or no room for it. */
  lemma EncodingAdvances(kind: Byte, value: Bytes, offset: nat, done: Bytes, room: nat)
    requires Encoding(kind, value, offset, done, room) && offset < |value|
    ensures var c := Chunk(value[offset..]);
      if |done| + 2 + |c| > room then |Encoded(kind, value)| > room && Fitting(kind, value, room) == done
      else Encoding(kind, value, offset + |c|, done + Fragment(kind, c), room)
  {
    hide Chunk, Fragment, Fragments, Fitting, Encoded;
    var rest := value[offset..];
    var c := Chunk(rest);
    var head := Fragment(kind, c);
    Unfolds(kind, rest, room - |done|);
    Unfolds(kind, value, room);
    assert rest[|c|..] == value[offset + |c|..];
    Regroup(done, head, Fragments(kind, rest[|c|..]));
    if |done| + 2 + |c| <= room {
      Regroup(done, head, Fitting(kind, rest[|c|..], room - |done| - 2 - |c|));
    }
  }

  lemma EncodingEnds(kind: Byte, value: Bytes, done: Bytes, room: nat)
    requires value != [] ==> Encoding(kind, value, |value|, done, room)
    ensures value != [] ==> done == Encoded(kind, value) && |done| <= room
  {
    if value != [] {
      assert done + Fragments(kind, []) == done;
    }
  }

  class Encoder {
    const buffer: array<Byte>
    const capacity: nat
    var size: nat

    ghost predicate Valid()
      reads this
    {
      size <= capacity <= buffer.Length
    }

    constructor (buffer: array<Byte>, capacity: nat)
      requires capacity <= buffer.Length
      ensures Valid() && size == 0 && this.buffer == buffer && this.capacity == capacity
    {
      this.buffer, this.capacity, size := buffer, capacity, 0;
    }

    /** Header and value bytes at the end of what is there. */
    method Append(kind: Byte, chunk: Bytes)
      requires Valid() && |chunk| <= MAX_CHUNK && size + 2 + |chunk| <= capacity
      modifies this`size, buffer
      ensures Valid() && size == old(size) + 2 + |chunk|
      ensures buffer[..size] == old(buffer[..size]) + Fragment(kind, chunk)
      ensures forall i :: size <= i < buffer.Length ==> buffer[i] == old(buffer[i])
    {
      ghost var before := buffer[..size];
      buffer[size] := kind;
      buffer[size + 1] := |chunk|;
      size := size + 2;
      forall i | 0 <= i < |chunk| {
        buffer[size + i] := chunk[i];
      }
      forall i | size <= i < size + |chunk| ensures buffer[i] == chunk[i - size] {
        assert buffer[size + (i - size)] == chunk[i - size];
      }
      size := size + |chunk|;
      assert buffer[..size] == before + Fragment(kind, chunk);
    }

    /** tlv8_encode: all fragments if they fit; otherwise those that do, and false. */
    method Encode(kind: Byte, value: Bytes) returns (ok: bool)
      requires Valid()
      modifies this`size, buffer
      ensures Valid() && size >= old(size)
      ensures ok <==> old(size) + |Encoded(kind, value)| <= capacity
      ensures buffer[..size] == old(buffer[..size])
        + if ok then Encoded(kind, value) else Fitting(kind, value, capacity - old(size))
      ensures forall i :: size <= i < buffer.Length ==> buffer[i] == old(buffer[i])
    {
      hide Fragment, Fragments, Fitting, Encoding, Encoded;
      ghost var before, room, done := buffer[..size], capacity - size, [];
      EncodingStarts(kind, value, room);
      Unfolds(kind, value, room);
      var offset := 0;
      while offset < |value| || (offset == 0 && |value| == 0)
        invariant Valid() && offset <= |value| && size == |before| + |done| && |before| == old(size)
        invariant offset == 0 ==> done == []
        invariant buffer[..size] == before + done && Encoding(kind, value, offset, done, room)
        invariant forall i :: size <= i < buffer.Length ==> buffer[i] == old(buffer[i])
        decreases |value| - offset
      {
        var len := |value| - offset;
        if len > MAX_CHUNK {
          len := MAX_CHUNK;
        }
        var chunk := value[offset..][..len];
        assert chunk == Chunk(value[offset..]);
        Unfolds(kind, value[offset..], room);
        if len > 0 {
          EncodingAdvances(kind, value, offset, done, room);
        }
        if size + 2 + len > capacity {
          return false;
        }
        Append(kind, chunk);
        Regroup(before, done, Fragment(kind, chunk));
        done := done + Fragment(kind, chunk);
        offset := offset + len;
        if |value| == 0 {
          break;
        }
      }
      EncodingEnds(kind, value, done, room);
      ok := true;
    }
  }

  /** tlv8_find: the place and length of the first fragment's value. */
  method Find(data: Bytes, kind: Byte) returns (found: bool, at: nat, len: nat)
    ensures found ==> at + len <= |data| && FindFrom(data, kind) == Some(data[at..at + len])
    ensures !found ==> len == 0 && FindFrom(data, kind) == None
  {
    var offset := 0;
    while offset + 2 <= |data|
      invariant 0 <= offset <= |data| && FindFrom(data[offset..], kind) == FindFrom(data, kind)
    {
      var t, l := data[offset], data[offset + 1];
      if offset + 2 + l > |data| {
        break;
      }
      if t == kind {
        assert data[offset..][2..2 + l] == data[offset + 2..offset + 2 + l];
        return true, offset + 2, l;
      }
      assert data[offset..][2 + l..] == data[offset + 2 + l..];
      offset := offset + 2 + l;
    }
    return false, 0, 0;
  }

  lemma {:induction false} DecodeUnfolds(data: Bytes, kind: Byte, capacity: nat, found: bool, got: Bytes)
    ensures DecodeFrom(data, kind, capacity, found, got) ==
      if |data| < 2 || |data| < 2 + (data[1] as int) then Decoded(found, got)
      else
        var n: nat := 2 + (data[1] as int);
        if data[0] == kind then
          if |got| + (n - 2) > capacity then TooSmall
          else DecodeFrom(data[n..], kind, capacity, true, got + data[2..n])
        else if found then Decoded(true, got)
        else DecodeFrom(data[n..], kind, capacity, false, got)
  {
  }

  /** tlv8_decode_concat: false with `tooSmall` leaves the length alone. */
  method DecodeConcat(data: Bytes, kind: Byte, out: array<Byte>) returns (found: bool, tooSmall: bool, len: nat)
    modifies out
    ensures len <= out.Length
    ensures DecodeFrom(data, kind, out.Length, false, []) ==
      if tooSmall then TooSmall else Decoded(found, out[..len])
    ensures tooSmall ==> !found
    ensures !tooSmall ==> forall i :: len <= i < out.Length ==> out[i] == old(out[i])
  {
    hide DecodeFrom;
    var offset, end, inSequence := 0, 0, false;
    found := false;
    while offset + 2 <= |data|
      invariant 0 <= offset <= |data| && 0 <= end <= out.Length && inSequence == found
      invariant DecodeFrom(data, kind, out.Length, false, [])
             == DecodeFrom(data[offset..], kind, out.Length, found, out[..end])
      invariant forall i :: end <= i < out.Length ==> out[i] == old(out[i])
    {
      var t, l := data[offset], data[offset + 1];
      DecodeUnfolds(data[offset..], kind, out.Length, found, out[..end]);
      if offset + 2 + l > |data| {
        break;
      }
      ghost var got, here := out[..end], data[offset..];
      assert here[2 + l..] == data[offset + 2 + l..];
      if t == kind {
        found, inSequence := true, true;
        if end + l > out.Length {
          return false, true, 0;
        }
        forall i | 0 <= i < l {
          out[end + i] := data[offset + 2 + i];
        }
        assert out[..end + l] == got + here[2..2 + l];
        end := end + l;
      } else if inSequence {
        break;
      }
      offset := offset + 2 + l;
    }
    DecodeUnfolds(data[offset..], kind, out.Length, found, out[..end]);
    return found, false, end;
  }
}
