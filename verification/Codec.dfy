/** Keys as byte strings whose byte order is the order of the numbers. */
module Codec {
  import opened SlottedPage

  const SIGN: nat := 0x8000_0000_0000_0000
  const WORD: nat := 0x1_0000_0000_0000_0000

  type Int64 = n: int | -0x8000_0000_0000_0000 <= n < 0x8000_0000_0000_0000

  // ---------------------------------------------------------------- big-endian numbers

  /** The weight of a digit with k digits behind it. */
  function Weight(k: nat): (p: nat)
    ensures p > 0
  {
    if k == 0 then 1 else 256 * Weight(k - 1)
  }

  function BigEndian(v: nat, k: nat): seq<Byte>
    requires v < Weight(k)
  {
    if k == 0 then [] else BigEndian(v / 256, k - 1) + [v % 256]
  }

  function Value(bs: seq<Byte>): nat {
    if bs == [] then 0 else Value(bs[..|bs| - 1]) * 256 + bs[|bs| - 1] as int
  }

  lemma {:induction false} ValueBound(bs: seq<Byte>)
    ensures Value(bs) < Weight(|bs|)
  {
    if bs != [] { ValueBound(bs[..|bs| - 1]); }
  }

  /** Decoding inverts encoding. */
  lemma {:induction false} BigEndianValue(v: nat, k: nat)
    requires v < Weight(k)
    ensures |BigEndian(v, k)| == k && Value(BigEndian(v, k)) == v
  {
    if k > 0 {
      BigEndianValue(v / 256, k - 1);
      assert BigEndian(v, k)[..k - 1] == BigEndian(v / 256, k - 1);
    }
  }

  /** And encoding inverts decoding. */
  lemma {:induction false} ValueBigEndian(bs: seq<Byte>)
    ensures Value(bs) < Weight(|bs|) && BigEndian(Value(bs), |bs|) == bs
  {
    ValueBound(bs);
    if bs != [] {
      ValueBigEndian(bs[..|bs| - 1]);
      assert bs == bs[..|bs| - 1] + [bs[|bs| - 1]];
    }
  }

  // ---------------------------------------------------------------- byte order

  /** Lexicographic comparison of byte strings: negative, zero or positive. */
  function CompareKeys(a: seq<Byte>, b: seq<Byte>): int {
    if a == [] && b == [] then 0
    else if a == [] then -1
    else if b == [] then 1
    else if a[0] != b[0] then (if a[0] < b[0] then -1 else 1)
    else CompareKeys(a[1..], b[1..])
  }

  lemma {:induction false} CompareLast(a: seq<Byte>, b: seq<Byte>, x: Byte, y: Byte)
    requires |a| == |b|
    ensures CompareKeys(a + [x], b + [y]) ==
            if CompareKeys(a, b) != 0 then CompareKeys(a, b) else CompareKeys([x], [y])
  {
    if a == [] {
      assert a + [x] == [x] && b + [y] == [y];
    } else {
      assert (a + [x])[1..] == a[1..] + [x] && (b + [y])[1..] == b[1..] + [y];
      CompareLast(a[1..], b[1..], x, y);
    }
  }

  /** For strings of one length it is the order of the numbers they encode. */
  lemma {:induction false} CompareIsOrder(a: seq<Byte>, b: seq<Byte>)
    requires |a| == |b|
    ensures CompareKeys(a, b) < 0 <==> Value(a) < Value(b)
    ensures CompareKeys(a, b) == 0 <==> a == b
    ensures CompareKeys(a, b) > 0 <==> Value(a) > Value(b)
  {
    if a != [] {
      var n := |a| - 1;
      CompareIsOrder(a[..n], b[..n]);
      CompareLast(a[..n], b[..n], a[n], b[n]);
      assert a == a[..n] + [a[n]] && b == b[..n] + [b[n]];
      CompareOne(a[n], b[n]);
      hide CompareKeys;
    }
  }

  lemma CompareOne(x: Byte, y: Byte)
    ensures CompareKeys([x], [y]) == if x < y then -1 else if x == y then 0 else 1
  {
    assert [x][1..] == [] == [y][1..];
  }

  lemma {:induction false} ValueConcat(a: seq<Byte>, b: seq<Byte>)
    ensures Value(a + b) == Value(a) * Weight(|b|) + Value(b)
  {
    if b == [] {
      assert a + b == a;
    } else {
      var n := |b| - 1;
      ValueConcat(a, b[..n]);
      assert (a + b)[..|a| + n] == a + b[..n];
      assert Value(a) * Weight(|b|) == Value(a) * Weight(n) * 256;
    }
  }

  lemma {:induction false} WeightSum(j: nat, k: nat)
    ensures Weight(j + k) == Weight(j) * Weight(k)
  {
    if j > 0 {
      WeightSum(j - 1, k);
      assert 256 * (Weight(j - 1) * Weight(k)) == (256 * Weight(j - 1)) * Weight(k);
    }
  }

  lemma WordIsWeight()
    ensures Weight(8) == WORD
  {
    assert Weight(2) == 0x1_0000;
    assert Weight(4) == 0x1_0000_0000;
    WeightSum(4, 4);
  }

  // ---------------------------------------------------------------- signed numbers

  /** The two's complement bits of n, and back. */
  function ToBits(n: Int64): nat {
    if n < 0 then n + WORD else n
  }

  function FromBits(bits: nat): Int64
    requires bits < WORD
  {
    if bits >= SIGN then bits - WORD else bits
  }

  /** Flips the sign bit of a 64-bit word. */
  function FlipSign(bits: nat): (f: nat)
    requires bits < WORD
    ensures f < WORD
  {
    if bits >= SIGN then bits - SIGN else bits + SIGN
  }

  function EncodeInt64(n: Int64): (bs: seq<Byte>)
    ensures |bs| == 8 && Value(bs) == n + SIGN
  {
    WordIsWeight();
    BigEndianValue(FlipSign(ToBits(n)), 8);
    BigEndian(FlipSign(ToBits(n)), 8)
  }

  function DecodeInt64(bs: seq<Byte>): Int64
    requires |bs| == 8
  {
    WordIsWeight();
    ValueBound(bs);
    FromBits(FlipSign(Value(bs)))
  }

  lemma Int64RoundTrip(n: Int64)
    ensures DecodeInt64(EncodeInt64(n)) == n
  {
  }

  lemma BytesRoundTrip(bs: seq<Byte>)
    requires |bs| == 8
    ensures EncodeInt64(DecodeInt64(bs)) == bs
  {
    WordIsWeight();
    ValueBound(bs);
    ValueBigEndian(bs);
    ValueBigEndian(EncodeInt64(DecodeInt64(bs)));
  }

  /** Byte order of the encodings is the order of the numbers. */
  lemma EncodingKeepsOrder(m: Int64, n: Int64)
    ensures CompareKeys(EncodeInt64(m), EncodeInt64(n)) < 0 <==> m < n
    ensures CompareKeys(EncodeInt64(m), EncodeInt64(n)) == 0 <==> m == n
  {
    CompareIsOrder(EncodeInt64(m), EncodeInt64(n));
    Int64RoundTrip(m);
    Int64RoundTrip(n);
  }

  // ---------------------------------------------------------------- composite keys

  function EncodeCompositeKey(a: Int64, b: Int64): (bs: seq<Byte>)
    ensures |bs| == 16 && Value(bs) == (a + SIGN) * WORD + (b + SIGN)
  {
    WordIsWeight();
    ValueConcat(EncodeInt64(a), EncodeInt64(b));
    EncodeInt64(a) + EncodeInt64(b)
  }

  function DecodeCompositeKey(bs: seq<Byte>): (Int64, Int64)
    requires |bs| == 16
  {
    (DecodeInt64(bs[..8]), DecodeInt64(bs[8..]))
  }

  lemma CompositeRoundTrip(a: Int64, b: Int64)
    ensures DecodeCompositeKey(EncodeCompositeKey(a, b)) == (a, b)
  {
    var bs := EncodeCompositeKey(a, b);
    assert bs[..8] == EncodeInt64(a) && bs[8..] == EncodeInt64(b);
    Int64RoundTrip(a);
    Int64RoundTrip(b);
  }

  /** Byte order of composite keys is the lexicographic order of the pairs. */
  lemma CompositeKeepsOrder(a: Int64, b: Int64, c: Int64, d: Int64)
    ensures CompareKeys(EncodeCompositeKey(a, b), EncodeCompositeKey(c, d)) < 0 <==> a < c || (a == c && b < d)
    ensures CompareKeys(EncodeCompositeKey(a, b), EncodeCompositeKey(c, d)) == 0 <==> a == c && b == d
  {
    CompareIsOrder(EncodeCompositeKey(a, b), EncodeCompositeKey(c, d));
    CompositeRoundTrip(a, b);
    CompositeRoundTrip(c, d);
  }
}
