/**
 Bytes on the wire: the integer formats of soprano/datastream.cpp in the memory layout of a
 little-endian host, and reading from a finite byte stream.
 */
module Bytes {
  type byte = b: int | 0 <= b < 256
  type uint8 = v: int | 0 <= v < 256
  type uint16 = v: int | 0 <= v < 0x1_0000
  type uint32 = v: int | 0 <= v < 0x1_0000_0000
  type int32 = v: int | -0x8000_0000 <= v < 0x8000_0000

  // A byte array with a 32-bit length; also a string as its UTF-8 bytes and a URL as its encoded bytes.
  type Blob = a: seq<byte> | |a| < 0x1_0000_0000

  /** The result of a read: a value and the bytes after it, or a stream that ended first and is drained. */
  datatype Parse<+T> = Got(value: T, rest: seq<byte>) | Short

  function Take(s: seq<byte>, n: nat): Parse<seq<byte>> {
    if n <= |s| then Got(s[..n], s[n..]) else Short
  }

  /**
   What a transport owes its caller: exactly the next bytes if there are enough of them, and otherwise a failure
   with the stream drained.
   */
  predicate Delivers(before: seq<byte>, size: nat, ok: bool, data: seq<byte>, after: seq<byte>) {
    match Take(before, size)
    case Got(value, rest) => ok && data == value && after == rest
    case Short => !ok && after == []
  }

  function EncodeU8(v: uint8): seq<byte> {
    [v]
  }

  function DecodeU8(s: seq<byte>): Parse<uint8> {
    if |s| >= 1 then Got(s[0], s[1..]) else Short
  }

  function EncodeU16(v: uint16): seq<byte> {
    [v % 0x100, v / 0x100]
  }

  function DecodeU16(s: seq<byte>): Parse<uint16> {
    if |s| >= 2 then Got(s[0] as int + 0x100 * s[1] as int, s[2..]) else Short
  }

  function EncodeU32(v: uint32): seq<byte> {
    [v % 0x100, v / 0x100 % 0x100, v / 0x1_0000 % 0x100, v / 0x100_0000]
  }

  function DecodeU32(s: seq<byte>): Parse<uint32> {
    if |s| >= 4
    then Got(s[0] as int + 0x100 * s[1] as int + 0x1_0000 * s[2] as int + 0x100_0000 * s[3] as int, s[4..])
    else Short
  }

  // Two's complement.
  function EncodeI32(v: int32): seq<byte> {
    EncodeU32(if v < 0 then v + 0x1_0000_0000 else v)
  }

  function DecodeI32(s: seq<byte>): Parse<int32> {
    match DecodeU32(s)
    case Got(v, rest) => Got(if v < 0x8000_0000 then v else v - 0x1_0000_0000, rest)
    case Short => Short
  }

  lemma U16RoundTrip(v: uint16, rest: seq<byte>)
    ensures DecodeU16(EncodeU16(v) + rest) == Got(v, rest)
  {
    assert (EncodeU16(v) + rest)[2..] == rest;
  }

  lemma BytesOfWord(v: nat)
    ensures v == v % 0x100 + 0x100 * (v / 0x100 % 0x100) + 0x1_0000 * (v / 0x1_0000 % 0x100) +
                 0x100_0000 * (v / 0x100_0000)
  {
    var a, b := v / 0x100, v / 0x1_0000;
    assert v == v % 0x100 + 0x100 * a;
    assert b == a / 0x100 && a == a % 0x100 + 0x100 * b;
    assert v / 0x100_0000 == b / 0x100 && b == b % 0x100 + 0x100 * (b / 0x100);
  }

  lemma U32RoundTrip(v: uint32, rest: seq<byte>)
    ensures DecodeU32(EncodeU32(v) + rest) == Got(v, rest)
  {
    var s := EncodeU32(v) + rest;
    assert s[4..] == rest;
    BytesOfWord(v);
    assert s[0] == v % 0x100 && s[1] == v / 0x100 % 0x100 && s[2] == v / 0x1_0000 % 0x100 && s[3] == v / 0x100_0000;
  }

  lemma I32RoundTrip(v: int32, rest: seq<byte>)
    ensures DecodeI32(EncodeI32(v) + rest) == Got(v, rest)
  {
    U32RoundTrip(if v < 0 then v + 0x1_0000_0000 else v, rest);
  }

  // A boolean is a byte, and any byte but 0 reads as true.
  function EncodeBool(b: bool): seq<byte> {
    [if b then 1 else 0]
  }

  function DecodeBool(s: seq<byte>): Parse<bool> {
    if |s| >= 1 then Got(s[0] != 0, s[1..]) else Short
  }

  lemma BoolRoundTrip(b: bool, rest: seq<byte>)
    ensures DecodeBool(EncodeBool(b) + rest) == Got(b, rest)
  {
    assert (EncodeBool(b) + rest)[1..] == rest;
  }

  function EncodeBlob(a: Blob): seq<byte> {
    EncodeU32(|a|) + a
  }

  function DecodeBlob(s: seq<byte>): Parse<Blob> {
    match DecodeU32(s)
    case Got(len, rest) => if len <= |rest| then Got(rest[..len], rest[len..]) else Short
    case Short => Short
  }

  lemma BlobRoundTrip(a: Blob, rest: seq<byte>)
    ensures DecodeBlob(EncodeBlob(a) + rest) == Got(a, rest)
  {
    assert EncodeBlob(a) + rest == EncodeU32(|a|) + (a + rest);
    U32RoundTrip(|a|, a + rest);
  }

  function Ascii(s: string): (a: Blob)
    requires |s| < 256
    ensures |a| == |s|
  {
    seq(|s|, i requires 0 <= i < |s| => if s[i] < '\U{0080}' then s[i] as int else 0)
  }
}
