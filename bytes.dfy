/**
 * Bytes and the integers they spell: unsigned values in either byte order,
 * 32-bit two's complement, and the byte swap used to reach host order.
 */
module Bytes {

  newtype byte = b: int | 0 <= b < 256

  /** Order of the bytes of one multi-byte value. */
  datatype ByteOrder = BigEndian | LittleEndian

  function Pow256(n: nat): (p: nat)
    ensures p >= 1
  {
    if n == 0 then 1 else 256 * Pow256(n - 1)
  }

  const TwoTo31: int := 0x8000_0000
  const TwoTo32: int := 0x1_0000_0000

  function Reverse<T>(s: seq<T>): (r: seq<T>)
    ensures |r| == |s|
    ensures forall i :: 0 <= i < |s| ==> r[i] == s[|s| - 1 - i]
  {
    if s == [] then [] else Reverse(s[1..]) + [s[0]]
  }

  /** Swapping the bytes of a value twice gives back the original bytes. */
  lemma ReverseInvolution<T>(s: seq<T>)
    ensures Reverse(Reverse(s)) == s
  {
  }

  /** Unsigned value of `s`, most significant byte first. */
  function BigEndianValue(s: seq<byte>): (v: nat)
    ensures v < Pow256(|s|)
  {
    if s == [] then 0 else BigEndianValue(s[..|s| - 1]) * 256 + s[|s| - 1] as int
  }

  /** The `n` bytes, most significant first, whose unsigned value is `v`. */
  function BigEndianBytes(v: nat, n: nat): (s: seq<byte>)
    requires v < Pow256(n)
    ensures |s| == n
  {
    if n == 0 then [] else BigEndianBytes(v / 256, n - 1) + [(v % 256) as byte]
  }

  lemma {:induction false} BigEndianValueOfBytes(v: nat, n: nat)
    requires v < Pow256(n)
    ensures BigEndianValue(BigEndianBytes(v, n)) == v
  {
    if n > 0 {
      BigEndianValueOfBytes(v / 256, n - 1);
      var s := BigEndianBytes(v, n);
      assert s[..n - 1] == BigEndianBytes(v / 256, n - 1);
    }
  }

  lemma {:induction false} BigEndianBytesOfValue(s: seq<byte>)
    ensures BigEndianBytes(BigEndianValue(s), |s|) == s
  {
    if s != [] {
      var n := |s|;
      var v := BigEndianValue(s);
      BigEndianBytesOfValue(s[..n - 1]);
      assert v / 256 == BigEndianValue(s[..n - 1]);
      assert (v % 256) as byte == s[n - 1];
      assert s == s[..n - 1] + [s[n - 1]];
    }
  }

  /** The bytes of a value rearranged most significant first. */
  function MostSignificantFirst(s: seq<byte>, order: ByteOrder): seq<byte>
  {
    if order == BigEndian then s else Reverse(s)
  }

  /** Unsigned value of `s` read in `order`. */
  function UnsignedValue(s: seq<byte>, order: ByteOrder): (v: nat)
    ensures v < Pow256(|s|)
  {
    BigEndianValue(MostSignificantFirst(s, order))
  }

  /** Bytes in `order` whose unsigned value is `v`. */
  function UnsignedBytes(v: nat, n: nat, order: ByteOrder): (s: seq<byte>)
    requires v < Pow256(n)
    ensures |s| == n
  {
    MostSignificantFirst(BigEndianBytes(v, n), order)
  }

  lemma UnsignedRoundTrip(v: nat, n: nat, order: ByteOrder)
    requires v < Pow256(n)
    ensures UnsignedValue(UnsignedBytes(v, n, order), order) == v
  {
    var b := BigEndianBytes(v, n);
    if order == LittleEndian {
      ReverseInvolution(b);
    }
    BigEndianValueOfBytes(v, n);
  }

  lemma UnsignedBytesOfValue(s: seq<byte>, order: ByteOrder)
    ensures UnsignedBytes(UnsignedValue(s, order), |s|, order) == s
  {
    BigEndianBytesOfValue(MostSignificantFirst(s, order));
    if order == LittleEndian {
      ReverseInvolution(s);
    }
  }

  /** Reading the reversed bytes in the opposite order gives the same value. */
  lemma SwapOppositeOrder(s: seq<byte>, order: ByteOrder)
    ensures UnsignedValue(Reverse(s), if order == BigEndian then LittleEndian else BigEndian)
         == UnsignedValue(s, order)
  {
    ReverseInvolution(s);
  }

  /** The signed 32-bit integer whose two's complement pattern is `u`. */
  function Signed32(u: nat): (v: int)
    requires u < TwoTo32
    ensures -TwoTo31 <= v < TwoTo31
    ensures (u - v) % TwoTo32 == 0
  {
    if u >= TwoTo31 then u - TwoTo32 else u
  }

  /** A 4-byte signed integer in `order`, as `struct.unpack` with format `l` reads it. */
  function Int32Value(s: seq<byte>, order: ByteOrder): (v: int)
    requires |s| == 4
    ensures -TwoTo31 <= v < TwoTo31
  {
    assert Pow256(4) == TwoTo32;
    Signed32(UnsignedValue(s, order))
  }

  /** The four bytes in `order` that spell the signed 32-bit integer `v`. */
  function Int32Bytes(v: int, order: ByteOrder): (s: seq<byte>)
    requires -TwoTo31 <= v < TwoTo31
    ensures |s| == 4
  {
    assert Pow256(4) == TwoTo32;
    UnsignedBytes(if v < 0 then v + TwoTo32 else v, 4, order)
  }

  lemma Int32RoundTrip(v: int, order: ByteOrder)
    requires -TwoTo31 <= v < TwoTo31
    ensures Int32Value(Int32Bytes(v, order), order) == v
  {
    assert Pow256(4) == TwoTo32;
    UnsignedRoundTrip(if v < 0 then v + TwoTo32 else v, 4, order);
  }

  lemma Int32BytesOfValue(s: seq<byte>, order: ByteOrder)
    requires |s| == 4
    ensures Int32Bytes(Int32Value(s, order), order) == s
  {
    assert Pow256(4) == TwoTo32;
    UnsignedBytesOfValue(s, order);
  }

  /** Every element with its bytes in the opposite order (numpy's `byteswap`). */
  function ByteSwapped(els: seq<seq<byte>>): (r: seq<seq<byte>>)
    ensures |r| == |els|
    ensures forall i :: 0 <= i < |els| ==> r[i] == Reverse(els[i])
  {
    seq(|els|, i requires 0 <= i < |els| => Reverse(els[i]))
  }

  /** Swapping the bytes of every element twice gives back the elements. */
  lemma ByteSwappedTwice(els: seq<seq<byte>>)
    ensures ByteSwapped(ByteSwapped(els)) == els
  {
    forall i | 0 <= i < |els|
      ensures ByteSwapped(ByteSwapped(els))[i] == els[i]
    {
      ReverseInvolution(els[i]);
    }
  }

  lemma ChunkFits(i: nat, width: nat, length: nat)
    requires width > 0 && length % width == 0 && i < length / width
    ensures i * width + width <= length
  {
    assert (i + 1) * width <= (length / width) * width;
  }

  /** `data` cut into consecutive elements of `width` bytes each (numpy's `fromstring`). */
  function Chunks(data: seq<byte>, width: nat): (els: seq<seq<byte>>)
    requires width > 0 && |data| % width == 0
    ensures |els| == |data| / width
  {
    seq(|data| / width, i requires 0 <= i < |data| / width =>
      ChunkFits(i, width, |data|);
      data[i * width .. i * width + width])
  }

  /** Element `i` is the `i`-th run of `width` bytes. */
  lemma ChunksAt(data: seq<byte>, width: nat)
    requires width > 0 && |data| % width == 0
    ensures forall i :: 0 <= i < |data| / width ==>
      i * width + width <= |data| && Chunks(data, width)[i] == data[i * width .. i * width + width]
  {
    forall i | 0 <= i < |data| / width
      ensures i * width + width <= |data| && Chunks(data, width)[i] == data[i * width .. i * width + width]
    {
      ChunkFits(i, width, |data|);
    }
  }
}
