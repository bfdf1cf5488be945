/**
 Unsigned variable-length integers of the CQL protocol: the encoder of
 scylla-rust-wrapper/src/cql_types/value.rs, the size computation of src/utils.hpp, and a reader
 written from the protocol (section 3 of the CQL native protocol v5).
 */
module Vint {

  import opened Prelude

  function Pow2(k: nat): (r: nat)
    ensures r >= 1
  {
    if k == 0 then 1 else 2 * Pow2(k - 1)
  }

  /** The number of bits `v` needs. */
  function BitLength(v: nat): nat {
    if v == 0 then 0 else 1 + BitLength(v / 2)
  }

  function LeadingZeros(v: u64): nat {
    Pow64();
    BitLengthBound(v, 64);
    64 - BitLength(v)
  }

  lemma {:induction false} PowAdd(j: nat, k: nat)
    ensures Pow2(j + k) == Pow2(j) * Pow2(k)
  {
    if j > 0 {
      PowAdd(j - 1, k);
    }
  }

  lemma {:induction false} PowMono(j: nat, k: nat)
    requires j <= k
    ensures Pow2(j) <= Pow2(k)
  {
    if j < k {
      PowMono(j, k - 1);
    }
  }

  lemma SmallPowers()
    ensures Pow2(0) == 1 && Pow2(1) == 2 && Pow2(2) == 4 && Pow2(3) == 8 && Pow2(4) == 16
    ensures Pow2(5) == 32 && Pow2(6) == 64 && Pow2(7) == 128 && Pow2(8) == 256
  {
    assert Pow2(4) == 2 * Pow2(3);
    assert Pow2(6) == 2 * Pow2(5);
    assert Pow2(8) == 2 * Pow2(7);
  }

  lemma Pow64()
    ensures Pow2(64) == TWO_64
  {
    SmallPowers();
    PowAdd(8, 8);
    PowAdd(16, 16);
    PowAdd(32, 32);
  }

  /** `v` fits in `k` bits exactly when it is below 2^k. */
  lemma {:induction false} BitLengthBound(v: nat, k: nat)
    ensures BitLength(v) <= k <==> v < Pow2(k)
    decreases k
  {
    if v > 0 && k > 0 {
      BitLengthBound(v / 2, k - 1);
    }
  }

  // ----- Big-endian bytes

  /** The `n` least significant bytes of `v`, most significant first. */
  function BigEndian(v: nat, n: nat): (b: seq<byte>)
    ensures |b| == n
  {
    if n == 0 then [] else [v / Pow2(8 * (n - 1)) % 256] + BigEndian(v, n - 1)
  }

  function FromBigEndian(b: seq<byte>): nat {
    if b == [] then 0 else b[0] * Pow2(8 * (|b| - 1)) + FromBigEndian(b[1..])
  }

  lemma MulAtLeast(x: int, m: nat)
    requires x >= 1
    ensures x * m >= m
  {
  }

  lemma RemainderIs(v: nat, m: nat, q: nat, r: nat)
    requires v == q * m + r && r < m
    ensures v % m == r && v / m == q
  {
    var q' := v / m;
    assert v == q' * m + v % m;
    assert (q - q') * m == q * m - q' * m && (q' - q) * m == q' * m - q * m;
    if q - q' >= 1 {
      MulAtLeast(q - q', m);
    } else if q' - q >= 1 {
      MulAtLeast(q' - q, m);
    }
  }

  lemma Regroup(a: nat, c: nat, d: nat)
    requires c < 256
    ensures (a * 256 + c) * d == a * (256 * d) + c * d && c * d <= 255 * d
  {
    assert (255 - c) * d >= 0;
  }

  /** The low `256 * d` part of `v` is one more base-256 digit on top of the low `d` part. */
  lemma DigitSplit(v: nat, d: nat)
    requires d > 0
    ensures v % (256 * d) == v / d % 256 * d + v % d
  {
    var a, c, r := v / d / 256, v / d % 256, v % d;
    Regroup(a, c, d);
    assert v == (a * 256 + c) * d + r;
    RemainderIs(v, 256 * d, a, c * d + r);
  }

  lemma {:induction false} BigEndianRoundTrip(v: nat, n: nat)
    ensures FromBigEndian(BigEndian(v, n)) == v % Pow2(8 * n)
  {
    if n > 0 {
      BigEndianRoundTrip(v, n - 1);
      PowAdd(8, 8 * (n - 1));
      SmallPowers();
      DigitSplit(v, Pow2(8 * (n - 1)));
      assert BigEndian(v, n)[1..] == BigEndian(v, n - 1);
    }
  }

  // ----- The encoder

  /** The bytes unsigned_vint_encode appends. The length bits are OR-ed into bits that are all zero
      in `v`, so the OR is a sum. */
  function Encode(v: u64): (b: seq<byte>)
    ensures |b| >= 1
  {
    var numberOfBytes := (639 - 9 * LeadingZeros(v)) / 64;
    if numberOfBytes <= 1 then [v % 256]
    else if numberOfBytes < 9 then
      var extra := numberOfBytes - 1;
      BigEndian(Marked(v, extra), numberOfBytes)
    else [0xff] + BigEndian(v, 8)
  }

  /** A byte whose `extra` leading bits are set. */
  function LengthBits(extra: nat): byte
    requires extra <= 8
  {
    PowMono(8 - extra, 8);
    256 - Pow2(8 - extra)
  }

  /** `v` with the length bits of its `extra` bytes set. */
  function Marked(v: nat, extra: nat): nat
    requires extra <= 8
  {
    ProductSign(LengthBits(extra), Pow2(8 * extra));
    v + LengthBits(extra) * Pow2(8 * extra)
  }

  /** src/utils.hpp: the size of the encoding of `value`, read as unsigned. */
  function VintSize(value: u64): nat {
    var magnitude := LeadingZeros(if value % 2 == 0 then value + 1 else value);
    if magnitude != 0 then 9 - (magnitude - 1) / 7 else 9
  }

  /** num_leading_zeros where only 32 bits can be scanned at once. */
  function SplitLeadingZeros(v: u64): int {
    if v == 0 then 64 else
    var high := v / TWO_32;
    var index := if high != 0 then BitLength(high) - 1 + 32 else BitLength(v % TWO_32) - 1;
    64 - index - 1
  }

  lemma Pow32()
    ensures Pow2(32) == TWO_32
  {
    SmallPowers();
    PowAdd(8, 8);
    PowAdd(16, 16);
  }

  lemma HighBound(v: nat, j: nat)
    ensures BitLength(v / TWO_32) <= j <==> BitLength(v) <= 32 + j
  {
    Pow32();
    PowAdd(32, j);
    BitLengthBound(v / TWO_32, j);
    BitLengthBound(v, 32 + j);
    var p := Pow2(j);
    assert v < TWO_32 * p <==> v / TWO_32 < p;
  }

  lemma SplitAgrees(v: u64)
    ensures SplitLeadingZeros(v) == LeadingZeros(v)
  {
    if v / TWO_32 != 0 {
      var n := BitLength(v / TWO_32);
      HighBound(v, n);
      HighBound(v, n - 1);
    } else {
      assert v % TWO_32 == v;
    }
  }

  // ----- A reader, written from the protocol

  function LeadingOnes(first: byte): (n: nat)
    ensures n <= 8
  {
    if first < 0x80 then 0 else if first < 0xc0 then 1 else if first < 0xe0 then 2
    else if first < 0xf0 then 3 else if first < 0xf8 then 4 else if first < 0xfc then 5
    else if first < 0xfe then 6 else if first < 0xff then 7 else 8
  }

  /** The number of leading ones of the first byte counts the bytes that follow; its remaining bits
      are the most significant ones of the value. Returns the value and what is left. */
  function Decode(b: seq<byte>): Option<(nat, seq<byte>)> {
    if b == [] then None else
    var extra := LeadingOnes(b[0]);
    if |b| < 1 + extra then None
    else Some((b[0] % Pow2(8 - extra) * Pow2(8 * extra) + FromBigEndian(b[1..1 + extra]), b[1 + extra..]))
  }

  // ----- The size

  /** `n` is the number of bytes the protocol needs for `v`: the least one up to 8 with 7 bits of
      value per byte, else 9. */
  predicate IsSizeOf(v: u64, n: nat) {
    && 1 <= n <= 9
    && (n <= 8 ==> v < Pow2(7 * n))
    && (forall m | 1 <= m < n :: v >= Pow2(7 * m))
  }

  lemma SizeFromBits(v: u64, n: nat)
    requires 1 <= n <= 9 && (n <= 8 ==> BitLength(v) <= 7 * n) && (n > 1 ==> BitLength(v) > 7 * (n - 1))
    ensures IsSizeOf(v, n)
  {
    BitLengthBound(v, 7 * n);
    forall m | 1 <= m < n
      ensures v >= Pow2(7 * m)
    {
      BitLengthBound(v, 7 * m);
    }
  }

  lemma BitLengthAtMost64(v: u64)
    ensures BitLength(v) <= 64
  {
    Pow64();
    BitLengthBound(v, 64);
  }

  /** The encoder and the C++ size computation agree, and both are minimal. */
  lemma SizesAgree(v: u64)
    ensures IsSizeOf(v, |Encode(v)|) && VintSize(v) == |Encode(v)|
  {
    var l := BitLength(v);
    BitLengthAtMost64(v);
    SizeFromBits(v, |Encode(v)|);
    BitLengthOdd(v);
  }

  /** Setting the lowest bit changes the bit length of zero only. */
  lemma BitLengthOdd(v: u64)
    ensures v % 2 == 0 ==> BitLength(v + 1) == if v == 0 then 1 else BitLength(v)
  {
    if v % 2 == 0 && v > 0 {
      assert (v + 1) / 2 == v / 2;
    } else if v == 0 {
      assert BitLength(1) == 1 + BitLength(0);
    }
  }

  // ----- Round trip

  /** The length bits, with high bits of a value below them, tell the number of extra bytes. */
  lemma MarkedByte(h: nat, extra: nat)
    requires 1 <= extra <= 7 && h < Pow2(7 - extra)
    ensures h + LengthBits(extra) < 256
    ensures LeadingOnes(h + LengthBits(extra)) == extra
    ensures (h + LengthBits(extra)) % Pow2(8 - extra) == h
  {
    SmallPowers();
    assert extra == 1 || extra == 2 || extra == 3 || extra == 4 || extra == 5 || extra == 6 || extra == 7;
  }

  lemma DivBelow(v: nat, d: nat, k: nat)
    requires d > 0 && v < d * k
    ensures v / d < k
  {
    var h := v / d;
    assert v == h * d + v % d;
    assert (h - k) * d == h * d - d * k;
    ProductSign(h - k, d);
  }

  lemma ProductSign(x: int, d: nat)
    ensures x >= 0 ==> x * d >= 0
  {
  }

  lemma HighBits(v: nat, extra: nat)
    requires 1 <= extra <= 7 && v < Pow2(7 * (extra + 1))
    ensures v / Pow2(8 * extra) < Pow2(7 - extra)
  {
    var low, high := 8 * extra, 7 - extra;
    PowAdd(low, high);
    assert low + high == 7 * (extra + 1);
    DivBelow(v, Pow2(low), Pow2(high));
  }

  lemma AddMultiple(v: nat, d: nat, l: nat)
    requires d > 0
    ensures (v + l * d) / d == v / d + l && (v + l * d) % d == v % d && v == v / d * d + v % d
  {
    assert v + l * d == (v / d + l) * d + v % d;
    RemainderIs(v + l * d, d, v / d + l, v % d);
  }

  lemma DecodeParts(first: byte, body: seq<byte>, rest: seq<byte>)
    requires LeadingOnes(first) == |body|
    ensures Decode([first] + body + rest) ==
            Some((first % Pow2(8 - |body|) * Pow2(8 * |body|) + FromBigEndian(body), rest))
  {
    var b := [first] + body + rest;
    assert b[1..1 + |body|] == body;
    assert b[1 + |body|..] == rest;
  }

  lemma DecodeFrom(v: nat, w: nat, extra: nat, rest: seq<byte>, first: byte)
    requires 1 <= extra <= 7 && LeadingOnes(first) == extra && w / Pow2(8 * extra) == first
    requires v == first % Pow2(8 - extra) * Pow2(8 * extra) + w % Pow2(8 * extra)
    ensures Decode(BigEndian(w, extra + 1) + rest) == Some((v, rest))
  {
    var body := BigEndian(w, extra);
    assert BigEndian(w, extra + 1) == [first] + body;
    BigEndianRoundTrip(w, extra);
    DecodeParts(first, body, rest);
  }

  lemma MarkedValue(v: nat, extra: nat, d: nat)
    requires 1 <= extra <= 7 && d > 0 && v / d < Pow2(7 - extra)
    ensures var w: int, first: int := v + LengthBits(extra) * d, v / d + LengthBits(extra);
            && first < 256 && LeadingOnes(first) == extra && w / d == first
            && v == first % Pow2(8 - extra) * d + w % d
  {
    MarkedByte(v / d, extra);
    AddMultiple(v, d, LengthBits(extra));
  }

  lemma DecodeMiddle(v: u64, extra: nat, rest: seq<byte>)
    requires 1 <= extra <= 7 && v < Pow2(7 * (extra + 1))
    ensures Decode(BigEndian(Marked(v, extra), extra + 1) + rest) == Some((v, rest))
  {
    HighBits(v, extra);
    MarkedValue(v, extra, Pow2(8 * extra));
    DecodeFrom(v, Marked(v, extra), extra, rest, v / Pow2(8 * extra) + LengthBits(extra));
  }

  lemma DecodeShort(v: u64, rest: seq<byte>)
    requires v < 0x80
    ensures Decode([v] + rest) == Some((v, rest))
  {
    SmallPowers();
    assert ([v] + rest)[1..1] == [];
    assert ([v] + rest)[1..] == rest;
  }

  lemma EightBytes(v: u64)
    ensures FromBigEndian(BigEndian(v, 8)) == v
  {
    BigEndianRoundTrip(v, 8);
    Pow64();
    RemainderIs(v, TWO_64, 0, v);
  }

  lemma DecodeLong(v: u64, body: seq<byte>, rest: seq<byte>)
    requires |body| == 8 && FromBigEndian(body) == v
    ensures Decode([0xff] + body + rest) == Some((v, rest))
  {
    DecodeParts(0xff, body, rest);
  }

  /** Reading what the encoder wrote gives the value back and consumes exactly its bytes. */
  lemma DecodeEncode(v: u64, rest: seq<byte>)
    ensures Decode(Encode(v) + rest) == Some((v, rest))
  {
    var n := |Encode(v)|;
    SizesAgree(v);
    if n == 1 {
      SmallPowers();
      DecodeShort(v, rest);
    } else if n == 9 {
      EightBytes(v);
      DecodeLong(v, BigEndian(v, 8), rest);
    } else {
      DecodeMiddle(v, n - 1, rest);
    }
  }
}
