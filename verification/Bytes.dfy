/** Integers in memory: byte orders, and `intToData` of `MSIDConcatKdfProvider.swift`. */
module Bytes {

  type Byte = b: int | 0 <= b < 256

  /** `256^width`: the number of values of an unsigned integer `width` bytes wide. */
  function Values(width: nat): (n: nat)
    ensures n > 0
  {
    if width == 0 then 1 else 256 * Values(width - 1)
  }

  function Reverse(s: seq<Byte>): (r: seq<Byte>)
    ensures |r| == |s|
  {
    if s == [] then [] else Reverse(s[1..]) + [s[0]]
  }

  lemma {:induction false} ReverseAppend(s: seq<Byte>, b: Byte)
    ensures Reverse(s + [b]) == [b] + Reverse(s)
  {
    if s == [] {
      assert s + [b] == [b];
    } else {
      ReverseAppend(s[1..], b);
      assert (s + [b])[1..] == s[1..] + [b];
      assert ([b] + Reverse(s[1..])) + [s[0]] == [b] + (Reverse(s[1..]) + [s[0]]);
    }
  }

  lemma {:induction false} ReverseTwice(s: seq<Byte>)
    ensures Reverse(Reverse(s)) == s
  {
    if s != [] {
      ReverseTwice(s[1..]);
      ReverseAppend(Reverse(s[1..]), s[0]);
      assert s == [s[0]] + s[1..];
    }
  }

  // ---------- the two byte orders

  function LittleEndian(v: nat, width: nat): (bytes: seq<Byte>)
    ensures |bytes| == width
  {
    if width == 0 then [] else [v % 256] + LittleEndian(v / 256, width - 1)
  }

  /** Network order: the most significant byte first. */
  function BigEndian(v: nat, width: nat): (bytes: seq<Byte>)
    ensures |bytes| == width
  {
    if width == 0 then [] else BigEndian(v / 256, width - 1) + [v % 256]
  }

  function FromLittleEndian(bytes: seq<Byte>): (v: nat)
    ensures v < Values(|bytes|)
  {
    if bytes == [] then 0 else bytes[0] + 256 * FromLittleEndian(bytes[1..])
  }

  function FromBigEndian(bytes: seq<Byte>): (v: nat)
    ensures v < Values(|bytes|)
  {
    if bytes == [] then 0
    else FromBigEndian(bytes[..|bytes| - 1]) * 256 + bytes[|bytes| - 1]
  }

  lemma {:induction false} LittleEndianDecodes(v: nat, width: nat)
    requires v < Values(width)
    ensures FromLittleEndian(LittleEndian(v, width)) == v
  {
    if width > 0 {
      LittleEndianDecodes(v / 256, width - 1);
      assert LittleEndian(v, width)[1..] == LittleEndian(v / 256, width - 1);
    }
  }

  lemma {:induction false} LittleEndianEncodes(bytes: seq<Byte>)
    ensures LittleEndian(FromLittleEndian(bytes), |bytes|) == bytes
  {
    if bytes != [] {
      LittleEndianEncodes(bytes[1..]);
      assert bytes == [bytes[0]] + bytes[1..];
    }
  }

  /** Decoding undoes big-endian encoding. */
  lemma {:induction false} BigEndianDecodes(v: nat, width: nat)
    requires v < Values(width)
    ensures FromBigEndian(BigEndian(v, width)) == v
  {
    if width > 0 {
      BigEndianDecodes(v / 256, width - 1);
      assert BigEndian(v, width)[..width - 1] == BigEndian(v / 256, width - 1);
    }
  }

  /** Encoding undoes big-endian decoding. */
  lemma {:induction false} BigEndianEncodes(bytes: seq<Byte>)
    ensures BigEndian(FromBigEndian(bytes), |bytes|) == bytes
  {
    if bytes != [] {
      var n := |bytes| - 1;
      BigEndianEncodes(bytes[..n]);
      assert bytes == bytes[..n] + [bytes[n]];
    }
  }

  /** The two orders are each other's reverse. */
  lemma {:induction false} OrdersAreReversed(v: nat, width: nat)
    ensures Reverse(LittleEndian(v, width)) == BigEndian(v, width)
  {
    if width > 0 {
      OrdersAreReversed(v / 256, width - 1);
      assert LittleEndian(v, width)[1..] == LittleEndian(v / 256, width - 1);
    }
  }

  // ---------- hosts

  datatype Host = LittleEndianHost | BigEndianHost

  /** The bytes of an integer variable in the host's memory. */
  function Memory(host: Host, v: nat, width: nat): (bytes: seq<Byte>)
    ensures |bytes| == width
  {
    match host
    case LittleEndianHost => LittleEndian(v, width)
    case BigEndianHost => BigEndian(v, width)
  }

  /** `byteSwapped` of an unsigned fixed-width integer. */
  function ByteSwapped(v: nat, width: nat): nat {
    FromLittleEndian(Reverse(LittleEndian(v, width)))
  }

  /** The `bigEndian` property: the integer whose bytes in the host's memory are in network order. */
  function BigEndianValue(host: Host, v: nat, width: nat): nat {
    match host
    case LittleEndianHost => ByteSwapped(v, width)
    case BigEndianHost => v
  }

  /** `intToData`: the raw memory of the value. */
  function IntToData(host: Host, value: nat, width: nat): (data: seq<Byte>)
    ensures |data| == width
  {
    Memory(host, value, width)
  }

  /** On either kind of host, copying the memory of `v.bigEndian` gives `v` in network order. */
  lemma IntToDataIsNetworkOrder(host: Host, v: nat, width: nat)
    ensures IntToData(host, BigEndianValue(host, v, width), width) == BigEndian(v, width)
  {
    match host
    case BigEndianHost =>
    case LittleEndianHost =>
      LittleEndianEncodes(Reverse(LittleEndian(v, width)));
      OrdersAreReversed(v, width);
  }

  /** Swapping twice gives the value back. */
  lemma ByteSwapTwice(v: nat, width: nat)
    requires v < Values(width)
    ensures ByteSwapped(ByteSwapped(v, width), width) == v
  {
    var swapped := Reverse(LittleEndian(v, width));
    LittleEndianEncodes(swapped);
    ReverseTwice(LittleEndian(v, width));
    LittleEndianDecodes(v, width);
  }

  /** Network order tells different values apart, whatever host wrote them. */
  lemma IntToDataIsInjective(h1: Host, v1: nat, h2: Host, v2: nat, width: nat)
    requires v1 < Values(width) && v2 < Values(width)
    requires IntToData(h1, BigEndianValue(h1, v1, width), width) == IntToData(h2, BigEndianValue(h2, v2, width), width)
    ensures v1 == v2
  {
    IntToDataIsNetworkOrder(h1, v1, width);
    IntToDataIsNetworkOrder(h2, v2, width);
    BigEndianDecodes(v1, width);
    BigEndianDecodes(v2, width);
  }

  /** The four bytes of a 32-bit value in network order. */
  lemma FourBytes(v: nat)
    requires v < 0x1_0000_0000
    ensures BigEndian(v, 4) == [v / 0x100_0000, v / 0x1_0000 % 256, v / 0x100 % 256, v % 256]
  {
    assert BigEndian(v, 4) == BigEndian(v / 256 / 256 / 256, 1)
                              + [v / 256 / 256 % 256] + [v / 256 % 256] + [v % 256] by {
      assert BigEndian(v, 4) == BigEndian(v / 256, 3) + [v % 256];
      assert BigEndian(v / 256, 3) == BigEndian(v / 256 / 256, 2) + [v / 256 % 256];
      assert BigEndian(v / 256 / 256, 2) == BigEndian(v / 256 / 256 / 256, 1) + [v / 256 / 256 % 256];
    }
    assert BigEndian(v / 256 / 256 / 256, 1) == [v / 256 / 256 / 256 % 256];
  }
}
