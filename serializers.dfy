/**
 * The serializer contract of the key-value store and the two fixed-width
 * big-endian serializers the store's tests declare columns with: a 4-byte
 * serializer for Java ints (Guava's Ints.toByteArray / Ints.fromByteArray)
 * and the 8-byte serializer for teku's UInt64.
 */
module Serializers {
  import opened Wrappers
  import opened Unsigned
  import opened ByteOrder

  /** A typed value's byte form and back; decoding bytes may fail. */
  datatype Serializer<!T> = Serializer(serialize: T -> Bytes, deserialize: Bytes -> Option<T>)

  /** The round-trip law every serializer of the store must satisfy. */
  ghost predicate RoundTrips<T(!new)>(s: Serializer<T>)
  {
    forall x :: s.deserialize(s.serialize(x)) == Some(x)
  }

  function Pow256(n: nat): (r: nat)
    ensures r >= 1
  {
    if n == 0 then 1 else 256 * Pow256(n - 1)
  }

  /** The number a big-endian byte string stands for (most significant byte first). */
  function DecodeBE(bs: Bytes): (r: nat)
    ensures r < Pow256(|bs|)
  {
    if |bs| == 0 then 0 else 256 * DecodeBE(bs[..|bs| - 1]) + bs[|bs| - 1]
  }

  /** x written in exactly `width` big-endian bytes, without any sign adjustment. */
  function EncodeBE(x: nat, width: nat): (r: Bytes)
    requires x < Pow256(width)
    ensures |r| == width
  {
    if width == 0 then [] else EncodeBE(x / 256, width - 1) + [x % 256]
  }

  lemma {:induction false} DecodeEncode(x: nat, width: nat)
    requires x < Pow256(width)
    ensures DecodeBE(EncodeBE(x, width)) == x
  {
    if width > 0 {
      var e := EncodeBE(x, width);
      assert e[..width - 1] == EncodeBE(x / 256, width - 1);
      DecodeEncode(x / 256, width - 1);
    }
  }

  lemma {:induction false} EncodeDecode(bs: Bytes)
    ensures EncodeBE(DecodeBE(bs), |bs|) == bs
  {
    if |bs| > 0 {
      var n := |bs|;
      var init := bs[..n - 1];
      EncodeDecode(init);
      assert DecodeBE(bs) / 256 == DecodeBE(init);
      assert DecodeBE(bs) % 256 == bs[n - 1];
      assert bs == init + [bs[n - 1]];
    }
  }

  /**
   * The central ordering fact: for byte strings of one width, unsigned
   * byte-lexicographic order is numeric order of their big-endian values,
   * and equal values mean equal strings.
   */
  lemma {:induction false} DecodeBEOrder(a: Bytes, b: Bytes)
    requires |a| == |b|
    ensures LexLe(a, b) <==> DecodeBE(a) <= DecodeBE(b)
    ensures a == b <==> DecodeBE(a) == DecodeBE(b)
  {
    if |a| == 0 {
      assert a == b;
    } else {
      var n := |a|;
      var a', b' := a[..n - 1], b[..n - 1];
      var x, y := a[n - 1], b[n - 1];
      DecodeBEOrder(a', b');
      assert a == a' + [x];
      assert b == b' + [y];
      LexLeSnoc(a', b', x, y);
      var da, db := DecodeBE(a'), DecodeBE(b');
      assert DecodeBE(a) == 256 * da + x;
      assert DecodeBE(b) == 256 * db + y;
      if da < db {
        assert DecodeBE(a) < DecodeBE(b);
      } else if da > db {
        assert DecodeBE(a) > DecodeBE(b);
      }
    }
  }

  /** Encoding naturals of one width in big-endian order preserves their order. */
  lemma EncodeBEOrder(x: nat, y: nat, width: nat)
    requires x < Pow256(width) && y < Pow256(width)
    ensures x <= y <==> LexLe(EncodeBE(x, width), EncodeBE(y, width))
    ensures x == y <==> EncodeBE(x, width) == EncodeBE(y, width)
  {
    DecodeEncode(x, width);
    DecodeEncode(y, width);
    DecodeBEOrder(EncodeBE(x, width), EncodeBE(y, width));
  }

  /** Decoding a concatenation: the leading bytes are the high-order digits. */
  lemma {:induction false} DecodeBEConcat(p: Bytes, s: Bytes)
    ensures DecodeBE(p + s) == DecodeBE(p) * Pow256(|s|) + DecodeBE(s)
  {
    if |s| == 0 {
      assert p + s == p;
    } else {
      var n := |s|;
      var init := s[..n - 1];
      assert (p + s)[..|p + s| - 1] == p + init;
      DecodeBEConcat(p, init);
      var dp, di, pw := DecodeBE(p), DecodeBE(init), Pow256(n - 1);
      assert DecodeBE(p + s) == 256 * DecodeBE(p + init) + s[n - 1];
      assert DecodeBE(s) == 256 * di + s[n - 1];
      assert Pow256(n) == 256 * pw;
      MulShift(dp, pw, di);
    }
  }

  lemma MulShift(a: int, b: int, c: int)
    ensures 256 * (a * b + c) == a * (256 * b) + 256 * c
  {
  }

  lemma Pow256Widths()
    ensures Pow256(4) == UINT32_LIMIT
    ensures Pow256(8) == UINT64_LIMIT
  {
  }

  // ---------------------------------------------------------------- UInt64

  function SerializeUInt64(x: uint64): Bytes
  {
    Pow256Widths();
    EncodeBE(x, 8)
  }

  /** Fails on fewer than 8 bytes; otherwise reads the leading 8 bytes. */
  function DeserializeUInt64(bs: Bytes): Option<uint64>
  {
    if |bs| < 8 then None
    else
      Pow256Widths();
      Some(DecodeBE(bs[..8]))
  }

  const UInt64Serializer: Serializer<uint64> := Serializer(SerializeUInt64, DeserializeUInt64)

  lemma UInt64Width(x: uint64)
    ensures |SerializeUInt64(x)| == 8
  {
  }

  lemma UInt64RoundTrip()
    ensures RoundTrips(UInt64Serializer)
  {
    forall x: uint64 ensures DeserializeUInt64(SerializeUInt64(x)) == Some(x) {
      Pow256Widths();
      var e := SerializeUInt64(x);
      assert e[..8] == e;
      DecodeEncode(x, 8);
    }
  }

  /** Every 8-byte string is the encoding of the UInt64 it decodes to. */
  lemma UInt64Canonical(bs: Bytes)
    requires |bs| == 8
    ensures DeserializeUInt64(bs).Some?
    ensures SerializeUInt64(DeserializeUInt64(bs).value) == bs
  {
    assert bs[..8] == bs;
    EncodeDecode(bs);
  }

  /** UInt64 keys sort, as bytes, in unsigned numeric order. */
  lemma UInt64OrderPreserving(x: uint64, y: uint64)
    ensures x <= y <==> LexLe(SerializeUInt64(x), SerializeUInt64(y))
    ensures x == y <==> SerializeUInt64(x) == SerializeUInt64(y)
  {
    Pow256Widths();
    EncodeBEOrder(x, y, 8);
  }

  lemma UInt64ZeroIsEightZeroBytes()
    ensures SerializeUInt64(0) == [0, 0, 0, 0, 0, 0, 0, 0]
  {
    Pow256Widths();
    assert EncodeBE(0, 8) == [0, 0, 0, 0, 0, 0, 0, 0];
  }

  /**
   * Why unsigned comparison matters: 639 and 640 lie inside the range the
   * store's tests scan (500..650), yet a comparison of signed bytes puts the
   * encoding of 640 (..., 0x02, 0x80) before that of 639 (..., 0x02, 0x7F).
   */
  lemma SignedComparisonMisorders()
    ensures LexLt(SerializeUInt64(639), SerializeUInt64(640))
    ensures !SignedLexLe(SerializeUInt64(639), SerializeUInt64(640))
  {
    Encodes639();
    Encodes640();
    UInt64OrderPreserving(639, 640);
    SignedMisorder639And640();
  }

  lemma Encodes639()
    ensures SerializeUInt64(639) == [0, 0, 0, 0, 0, 0, 2, 127]
  {
    Pow256Widths();
  }

  lemma Encodes640()
    ensures SerializeUInt64(640) == [0, 0, 0, 0, 0, 0, 2, 128]
  {
    Pow256Widths();
  }

  lemma SignedMisorder639And640()
    ensures !SignedLexLe([0, 0, 0, 0, 0, 0, 2, 127], [0, 0, 0, 0, 0, 0, 2, 128])
  {
    var a: Bytes := [0, 0, 0, 0, 0, 0, 2, 127];
    var b: Bytes := [0, 0, 0, 0, 0, 0, 2, 128];
    assert !SignedLexLe(a[6..], b[6..]);
  }

  // ---------------------------------------------------------------- Java int

  /** Ints.toByteArray: the 32-bit two's-complement bits, big-endian. */
  function SerializeInt(x: int32): Bytes
  {
    Pow256Widths();
    EncodeBE(if x < 0 then x + UINT32_LIMIT else x, 4)
  }

  /** Ints.fromByteArray: fails on fewer than 4 bytes, otherwise reads the leading 4. */
  function DeserializeInt(bs: Bytes): Option<int32>
  {
    if |bs| < 4 then None
    else
      Pow256Widths();
      var u := DecodeBE(bs[..4]);
      Some(if u < INT32_LIMIT then u else u - UINT32_LIMIT)
  }

  const IntSerializer: Serializer<int32> := Serializer(SerializeInt, DeserializeInt)

  lemma IntRoundTrip()
    ensures RoundTrips(IntSerializer)
  {
    forall x: int32 ensures DeserializeInt(SerializeInt(x)) == Some(x) {
      IntDecodesEncoding(x);
    }
  }

  lemma IntDecodesEncoding(x: int32)
    ensures DeserializeInt(SerializeInt(x)) == Some(x)
  {
    Pow256Widths();
    var e := SerializeInt(x);
    assert e[..4] == e;
    DecodeEncode(if x < 0 then x + UINT32_LIMIT else x, 4);
  }

  lemma IntWidth(x: int32)
    ensures |SerializeInt(x)| == 4
  {
  }

  /**
   * Every 4-byte string is the encoding of the int it decodes to, and that
   * int is non-negative exactly when the string read unsigned is below 2^31.
   */
  lemma IntCanonical(bs: Bytes)
    requires |bs| == 4
    ensures DeserializeInt(bs).Some?
    ensures SerializeInt(DeserializeInt(bs).value) == bs
    ensures DeserializeInt(bs).value >= 0 <==> DecodeBE(bs) < INT32_LIMIT
    ensures DeserializeInt(bs).value >= 0 ==> DeserializeInt(bs).value == DecodeBE(bs)
  {
    Pow256Widths();
    assert bs[..4] == bs;
    EncodeDecode(bs);
  }

  /** Int keys keep their order as bytes as long as they are not negative. */
  lemma IntOrderPreservingOnNonNegatives(x: int32, y: int32)
    requires 0 <= x && 0 <= y
    ensures x <= y <==> LexLe(SerializeInt(x), SerializeInt(y))
    ensures x == y <==> SerializeInt(x) == SerializeInt(y)
  {
    Pow256Widths();
    EncodeBEOrder(x, y, 4);
  }

  /** A negative int sorts after every non-negative one: -1 is stored after 0. */
  lemma IntNegativeSortsLast()
    ensures LexLt(SerializeInt(0), SerializeInt(-1))
  {
    Pow256Widths();
    EncodeBEOrder(0, UINT32_LIMIT - 1, 4);
  }

  /** Every negative int sorts after every non-negative one in the store's unsigned byte order. */
  lemma IntNegativesSortAfterNonNegatives(x: int32, y: int32)
    requires x < 0 <= y
    ensures LexLt(SerializeInt(y), SerializeInt(x))
  {
    Pow256Widths();
    EncodeBEOrder(y, x + UINT32_LIMIT, 4);
  }
}
