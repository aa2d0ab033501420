// src/stationapi/Serialization.hpp: the little-endian wire form of integers and texts, and the
// streams it is written to and read from. `Put…(value, tail)` are the bytes of a value followed by
// more bytes; `Get…(bytes)` is what reading makes of them.
module Serialization {
  import opened StringUtils

  type Bytes = seq<Byte>
  type U16 = v: int | 0 <= v < 0x1_0000
  type U32 = v: int | 0 <= v < 0x1_0000_0000

  /** Too few bytes to read from, or a value and the bytes after it. */
  datatype Parse<T> = Short | Got(value: T, rest: Bytes)
  {
    predicate IsFailure() {
      Short?
    }

    function PropagateFailure<U>(): Parse<U>
      requires Short?
    {
      Short
    }

    function Extract(): (T, Bytes)
      requires Got?
    {
      (value, rest)
    }
  }

  // ----- integers and bool, lines 9-48 -----

  function GetU8(b: Bytes): Parse<Byte> {
    if |b| < 1 then Short else Got(b[0], b[1..])
  }

  function U16Of(low: Byte, high: Byte): (v: U16)
    ensures v % 0x100 == low && v / 0x100 == high
  {
    var l: int, h: int := low, high;
    l + 0x100 * h
  }

  function U32Of(low: U16, high: U16): (v: U32)
    ensures v % 0x1_0000 == low && v / 0x1_0000 == high
  {
    var l: int, h: int := low, high;
    l + 0x1_0000 * h
  }

  function GetU16(b: Bytes): Parse<U16> {
    if |b| < 2 then Short else Got(U16Of(b[0], b[1]), b[2..])
  }

  function GetU32(b: Bytes): Parse<U32> {
    if |b| < 4 then Short else Got(U32Of(U16Of(b[0], b[1]), U16Of(b[2], b[3])), b[4..])
  }

  function GetBool(b: Bytes): Parse<bool> {
    var (v, rest) :- GetU8(b);
    Got(v != 0, rest)
  }

  function U16Bytes(v: U16): (b: Bytes)
    ensures |b| == 2 && U16Of(b[0], b[1]) == v
  {
    [v % 0x100, v / 0x100]
  }

  function U32Bytes(v: U32): (b: Bytes)
    ensures |b| == 4 && U32Of(U16Of(b[0], b[1]), U16Of(b[2], b[3])) == v
  {
    U16Bytes(v % 0x1_0000) + U16Bytes(v / 0x1_0000)
  }

  function PutU16(v: U16, tail: Bytes): (b: Bytes)
    ensures GetU16(b) == Got(v, tail)
  {
    U16Bytes(v) + tail
  }

  function PutU32(v: U32, tail: Bytes): (b: Bytes)
    ensures GetU32(b) == Got(v, tail)
  {
    U32Bytes(v) + tail
  }

  function PutBool(v: bool, tail: Bytes): (b: Bytes)
    ensures GetBool(b) == Got(v, tail)
  {
    [if v then 1 else 0] + tail
  }

  // ----- std::string, lines 52-68 -----

  function GetString(b: Bytes): Parse<Narrow> {
    var (length, rest) :- GetU16(b);
    if |rest| < length then Short else Got(rest[..length], rest[length..])
  }

  /** The length goes into sixteen bits, so only that many bytes are written and come back. */
  function PutString(s: Narrow, tail: Bytes): (b: Bytes)
    ensures GetString(b) == Got(s[..|s| % 0x1_0000], tail)
  {
    PutU16(|s| % 0x1_0000, s[..|s| % 0x1_0000] + tail)
  }

  // ----- std::u16string, lines 72-95 -----

  function UnitsOf(b: Bytes): (s: Wide)
    requires |b| % 2 == 0
    ensures |s| == |b| / 2
  {
    seq(|b| / 2, i requires 0 <= i < |b| / 2 => U16Of(b[2 * i], b[2 * i + 1]))
  }

  function BytesOf(s: Wide): (b: Bytes)
    ensures |b| == 2 * |s|
    ensures forall i :: 0 <= i < |s| ==> U16Of(b[2 * i], b[2 * i + 1]) == s[i]
  {
    if s == [] then [] else BytesOf(s[..|s| - 1]) + U16Bytes(s[|s| - 1])
  }

  function GetWide(b: Bytes): Parse<Wide> {
    var (length, rest) :- GetU32(b);
    if |rest| < 2 * length then Short else Got(UnitsOf(rest[..2 * length]), rest[2 * length..])
  }

  /** What the wire keeps of a text: all of it below 2^32 units. */
  function Clip(s: Wide): Wide {
    s[..|s| % 0x1_0000_0000]
  }

  function PutUnits(s: Wide, tail: Bytes): (b: Bytes)
    requires |s| < 0x1_0000_0000
    ensures GetWide(b) == Got(s, tail)
  {
    var units := BytesOf(s);
    assert (units + tail)[..2 * |s|] == units && (units + tail)[2 * |s|..] == tail;
    assert UnitsOf(units) == s;
    PutU32(|s|, units + tail)
  }

  function PutWide(s: Wide, tail: Bytes): (b: Bytes)
    ensures GetWide(b) == Got(Clip(s), tail)
  {
    PutUnits(Clip(s), tail)
  }

  // ----- reading is writing backwards -----

  lemma U32Again(b: Bytes)
    ensures GetU32(b).Got? ==> PutU32(GetU32(b).value, GetU32(b).rest) == b
  {
    if GetU32(b).Got? {
      var v: U32 := GetU32(b).value;
      assert U32Bytes(v) == b[..4];
      assert b == b[..4] + b[4..];
    }
  }

  lemma UnitsAgain(b: Bytes)
    requires |b| % 2 == 0
    ensures BytesOf(UnitsOf(b)) == b
  {
    var c := BytesOf(UnitsOf(b));
    forall k | 0 <= k < |b| ensures c[k] == b[k] {
      var i := k / 2;
      assert U16Of(c[2 * i], c[2 * i + 1]) == U16Of(b[2 * i], b[2 * i + 1]);
    }
  }

  /** Bytes that read as a text are the bytes writing that text makes, and it fits its length field. */
  lemma WideAgain(b: Bytes)
    ensures GetWide(b).Got? ==> |GetWide(b).value| < 0x1_0000_0000 && PutWide(GetWide(b).value, GetWide(b).rest) == b
  {
    if GetWide(b).Got? {
      hide UnitsOf, BytesOf, GetU32, PutU32;
      var length: U32, rest := GetU32(b).value, GetU32(b).rest;
      var s, units := GetWide(b).value, rest[..2 * length];
      UnitsAgain(units);
      assert |s| == length && Clip(s) == s;
      assert units + rest[2 * length..] == rest;
      U32Again(b);
    }
  }

  // ----- the streams -----

  class OutStream {
    var data: Bytes

    constructor ()
      ensures data == []
    {
      data := [];
    }

    method WriteBytes(b: Bytes)
      modifies this
      ensures data == old(data) + b
    {
      data := data + b;
    }

    method WriteU16(v: U16)
      modifies this
      ensures forall tail :: data + tail == old(data) + PutU16(v, tail)
    {
      WriteBytes(U16Bytes(v));
      forall tail ensures data + tail == old(data) + PutU16(v, tail) {
        Regroup(old(data), U16Bytes(v), tail);
      }
    }

    method WriteU32(v: U32)
      modifies this
      ensures forall tail :: data + tail == old(data) + PutU32(v, tail)
    {
      WriteBytes(U32Bytes(v));
      forall tail ensures data + tail == old(data) + PutU32(v, tail) {
        Regroup(old(data), U32Bytes(v), tail);
      }
    }

    method WriteBool(v: bool)
      modifies this
      ensures forall tail :: data + tail == old(data) + PutBool(v, tail)
    {
      var boolAsInt := [if v then 1 else 0];
      WriteBytes(boolAsInt);
      forall tail ensures data + tail == old(data) + PutBool(v, tail) {
        Regroup(old(data), boolAsInt, tail);
      }
    }

    method WriteString(value: Narrow)
      modifies this
      ensures forall tail :: data + tail == old(data) + PutString(value, tail)
    {
      var length := |value| % 0x1_0000;
      WriteU16(length);
      ghost var header := data;
      WriteBytes(value[..length]);
      forall tail ensures data + tail == old(data) + PutString(value, tail) {
        Regroup(header, value[..length], tail);
        assert header + (value[..length] + tail) == old(data) + PutU16(length, value[..length] + tail);
      }
    }

    method WriteWide(value: Wide)
      modifies this
      ensures forall tail :: data + tail == old(data) + PutWide(value, tail)
    {
      var length := |value| % 0x1_0000_0000;
      WriteU32(length);
      ghost var header := data;
      WriteUnits(value, length);
      forall tail ensures data + tail == old(data) + PutWide(value, tail) {
        var units := BytesOf(Clip(value));
        Regroup(header, units, tail);
        assert header + (units + tail) == old(data) + PutU32(length, units + tail);
      }
    }

    method WriteUnits(value: Wide, length: nat)
      requires length <= |value|
      modifies this
      ensures data == old(data) + BytesOf(value[..length])
    {
      for i := 0 to length
        invariant data == old(data) + BytesOf(value[..i])
      {
        var tmp := value[i];
        OneMoreUnit(value, i);
        Regroup(old(data), BytesOf(value[..i]), U16Bytes(tmp));
        WriteBytes(U16Bytes(tmp));
      }
    }
  }

  lemma OneMoreUnit(s: Wide, i: nat)
    requires i < |s|
    ensures BytesOf(s[..i + 1]) == BytesOf(s[..i]) + U16Bytes(s[i])
  {
    assert s[..i + 1][..i] == s[..i];
  }

  lemma Regroup(a: Bytes, b: Bytes, c: Bytes)
    ensures (a + b) + c == a + (b + c)
  {
  }

  /** A std::istream over a buffer: once a read or seek fails, it stays failed. */
  class InStream {
    const data: Bytes
    var position: nat
    var failed: bool

    ghost predicate Valid()
      reads this
    {
      position <= |data|
    }

    ghost function Rest(): Bytes
      requires Valid()
      reads this
    {
      data[position..]
    }

    /** The stream is good and what remains is what `p` left. */
    ghost predicate At<T>(p: Parse<T>, value: T)
      requires Valid()
      reads this
    {
      if p.Got? then !failed && value == p.value && Rest() == p.rest else failed
    }

    constructor (data: Bytes)
      ensures Valid() && this.data == data && position == 0 && !failed
    {
      this.data, position, failed := data, 0, false;
    }

    /** std::istream::read: a read past the end takes what is there and fails. */
    method ReadBytes(n: nat) returns (b: Bytes)
      requires Valid()
      modifies this
      ensures Valid()
      ensures failed <==> old(failed) || |data| < old(position) + n
      ensures !failed ==> position == old(position) + n && b == old(Rest())[..n] && Rest() == old(Rest())[n..]
      ensures old(failed) ==> position == old(position)
      ensures !old(failed) && failed ==> position == |data|
    {
      b := [];
      if !failed {
        if |data| < position + n {
          b, position, failed := data[position..], |data|, true;
        } else {
          b, position := data[position..position + n], position + n;
        }
      }
    }

    /** `unset` stands for what the caller's variable held before, which a failed read leaves there. */
    method ReadU16(unset: U16) returns (value: U16)
      requires Valid()
      modifies this
      ensures Valid()
      ensures if old(failed) then failed else At(GetU16(old(Rest())), value)
      ensures failed ==> value == unset
      ensures old(failed) ==> position == old(position)
      ensures !old(failed) && failed ==> position == |data|
    {
      var b := ReadBytes(2);
      value := if failed then unset else U16Of(b[0], b[1]);
    }

    method ReadU32() returns (value: U32)
      requires Valid()
      modifies this
      ensures Valid()
      ensures if old(failed) then failed else At(GetU32(old(Rest())), value)
    {
      var b := ReadBytes(4);
      if failed {
        value := *;
      } else {
        value := U32Of(U16Of(b[0], b[1]), U16Of(b[2], b[3]));
      }
    }

    method ReadBool() returns (value: bool)
      requires Valid()
      modifies this
      ensures Valid()
      ensures if old(failed) then failed else At(GetBool(old(Rest())), value)
    {
      var b := ReadBytes(1);
      if failed {
        value := *;
      } else {
        value := b[0] != 0;
      }
    }

    method ReadString() returns (value: Narrow)
      requires Valid()
      modifies this
      ensures Valid()
      ensures if old(failed) then failed else At(GetString(old(Rest())), value)
    {
      var unset: U16 := *;
      var length := ReadU16(unset);
      value := ReadBytes(length);
    }

    method ReadWide() returns (value: Wide)
      requires Valid()
      modifies this
      ensures Valid()
      ensures if old(failed) then failed else At(GetWide(old(Rest())), value)
    {
      var length := ReadU32();
      value := ReadUnits(length);
    }

    method ReadUnits(length: nat) returns (value: Wide)
      requires Valid()
      modifies this
      ensures Valid()
      ensures failed <==> old(failed) || |old(Rest())| < 2 * length
      ensures !failed ==> value == UnitsOf(old(Rest())[..2 * length]) && Rest() == old(Rest())[2 * length..]
    {
      ghost var start := position;
      value := seq(length, _ => 0);
      var tmp: U16 := *;
      for i := 0 to length
        invariant Valid() && |value| == length
        invariant failed <==> old(failed) || |data| < start + 2 * i
        invariant !failed ==> position == start + 2 * i
        invariant !failed ==> forall j :: 0 <= j < i ==> value[j] == U16Of(data[start + 2 * j], data[start + 2 * j + 1])
      {
        tmp := ReadU16(tmp);
        value := value[i := tmp];
      }
      if !failed {
        assert value == UnitsOf(data[start..][..2 * length]);
      }
    }

    method Seek(offset: nat)
      requires Valid()
      modifies this
      ensures Valid()
      ensures failed <==> old(failed) || |data| < offset
      ensures position == if failed then old(position) else offset
    {
      if !failed {
        if offset <= |data| {
          position := offset;
        } else {
          failed := true;
        }
      }
    }

    /** Lines 106-110, for a 16-bit integer. */
    method ReadU16At(offset: nat) returns (value: U16)
      requires Valid()
      modifies this
      ensures Valid()
      ensures failed <==> old(failed) || |data| < offset + 2
      ensures !failed ==> value == U16Of(data[offset], data[offset + 1])
      ensures position
           == if old(failed) || |data| < offset then old(position) else if failed then |data| else offset + 2
    {
      Seek(offset);
      var unset: U16 := *;
      value := ReadU16(unset);
    }

    /** Lines 112-119, for a 16-bit integer. The stream stays good, its position kept, exactly when it was
        good and holds the value. Otherwise it ends up failed and cannot be sent back; the position is
        lost if the offset is in range and the value is not. */
    method PeekU16At(offset: nat) returns (value: U16)
      requires Valid()
      modifies this
      ensures Valid()
      ensures failed <==> old(failed) || |data| < offset + 2
      ensures !failed ==> value == U16Of(data[offset], data[offset + 1])
      ensures position == old(position)
         <==> old(failed) || |data| < offset || offset + 2 <= |data| || old(position) == |data|
      ensures position != old(position) ==> position == |data|
    {
      var pos := position;
      value := ReadU16At(offset);
      Seek(pos);
    }
  }

  /** Peeking at the last byte of two from the start leaves the stream failed at its end. */
  method PeekLosesPosition() returns (s: InStream)
    ensures fresh(s) && s.failed && s.position == 2
  {
    s := new InStream([1, 2]);
    var _ := s.PeekU16At(1);
  }
}
