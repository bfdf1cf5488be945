/**
 MurmurHash3_x64_128 as Cassandra computes it (src/murmur3.cpp): 64-bit wrap-around arithmetic,
 little-endian blocks, and tail bytes that are sign-extended where the original hash of Austin
 Appleby zero-extends them.
 */
module Murmur3 {

  import opened Prelude
  import opened Vint
  import opened Words

  /** The length is an int. */
  type Key = k: seq<byte> | |k| < 0x8000_0000

  datatype State = State(h1: u64, h2: u64)

  const C1 := 0x87c37b91114253d5
  const C2 := 0x4cf5ad432745937f

  function MixK1(k: u64): u64 {
    Times(Rotl31(Times(k, C1)), C2)
  }

  function MixK2(k: u64): u64 {
    Times(Rotl33(Times(k, C2)), C1)
  }

  /** The end of each half of a body iteration. */
  function Stir(x: u64, other: u64, c: nat): u64 {
    Plus(Times(Plus(x, other), 5), c)
  }

  /** One iteration of the body. */
  function Round(h: State, k1: u64, k2: u64): State {
    var h1 := Stir(Rotl27(Xor64(h.h1, MixK1(k1))), h.h2, 0x52dce729);
    var h2 := Stir(Rotl31(Xor64(h.h2, MixK2(k2))), h1, 0x38495ab5);
    State(h1, h2)
  }

  function Fmix(k: u64): u64 {
    XorShift33(Times(XorShift33(Times(XorShift33(k), 0xff51afd7ed558ccd)), 0xc4ceb9fe1a85ec53))
  }

  /** The two running additions that frame the finalization mix. */
  function AddBoth(h: State): State {
    var h1 := Plus(h.h1, h.h2);
    State(h1, Plus(h.h2, h1))
  }

  /** The state just before the return, where `h1` is the result. */
  function Finish(h: State, len: u64): State {
    var a := AddBoth(State(Xor64(h.h1, len), Xor64(h.h2, len)));
    AddBoth(State(Fmix(a.h1), Fmix(a.h2)))
  }

  // ----- The hash

  /** A 64-bit load on a little-endian machine, for any number of bytes. */
  function LittleEndian(b: seq<byte>): nat {
    if b == [] then 0 else b[0] + 256 * LittleEndian(b[1..])
  }

  lemma {:induction false} LoadFits(b: seq<byte>, m: nat)
    requires m == Pow2(8 * |b|)
    ensures LittleEndian(b) < m
  {
    if b != [] {
      LoadFits(b[1..], Pow2(8 * (|b| - 1)));
      PowAdd(8, 8 * (|b| - 1));
      SmallPowers();
    }
  }

  function Block(key: seq<byte>, i: nat): u64
    requires 8 * i + 8 <= |key|
  {
    Pow64();
    LoadFits(key[8 * i..8 * i + 8], TWO_64);
    LittleEndian(key[8 * i..8 * i + 8])
  }

  type Blocks = seq<(u64, u64)>

  function BlocksOf(key: seq<byte>): (blocks: Blocks)
    ensures |blocks| == |key| / 16
    ensures forall i | 0 <= i < |blocks| :: blocks[i] == (Block(key, 2 * i), Block(key, 2 * i + 1))
  {
    seq(|key| / 16, i requires 0 <= i < |key| / 16 => (Block(key, 2 * i), Block(key, 2 * i + 1)))
  }

  /** The state after the body. */
  function Body(seed: u64, blocks: Blocks): State {
    if blocks == [] then State(seed, seed) else
    var n := |blocks| - 1;
    Round(Body(seed, blocks[..n]), blocks[n].0, blocks[n].1)
  }

  /** A tail byte as a 64-bit number. */
  function Extend(signed: bool, b: byte): u64 {
    if signed && b >= 0x80 then TWO_64 - 256 + b else b
  }

  /** The tail bytes shifted to their places and combined. */
  function Packed(signed: bool, t: seq<byte>): u64 {
    if t == [] then 0 else Xor64(Extend(signed, t[0]), Times(Packed(signed, t[1..]), 256))
  }

  function TailMix(signed: bool, h: State, t: seq<byte>): State {
    var first, second := if |t| <= 8 then t else t[..8], if |t| <= 8 then [] else t[8..];
    State(if first == [] then h.h1 else Xor64(h.h1, MixK1(Packed(signed, first))),
          if second == [] then h.h2 else Xor64(h.h2, MixK2(Packed(signed, second))))
  }

  function Tail(key: seq<byte>): (t: seq<byte>)
    ensures |t| == |key| % 16
  {
    key[|key| / 16 * 16..]
  }

  /** With `signed`, what the driver computes; without, Appleby's hash. */
  function Hash(signed: bool, key: Key, seed: u64): State {
    Finish(TailMix(signed, Body(seed, BlocksOf(key)), Tail(key)), |key|)
  }

  // ----- Every step is invertible

  lemma TimesC1Injective(x: u64, y: u64)
    requires Times(x, C1) == Times(y, C1)
    ensures x == y
  {
    AffineInjective(x, y, C1, 0xa98409e882ce4d7d, 0x59e6129fa91071c3, 0);
  }

  lemma TimesC2Injective(x: u64, y: u64)
    requires Times(x, C2) == Times(y, C2)
    ensures x == y
  {
    AffineInjective(x, y, C2, 0xa81e14edd9de2c7f, 0x328a44c9121df37a, 0);
  }

  lemma MixK1Injective(x: u64, y: u64)
    requires MixK1(x) == MixK1(y)
    ensures x == y
  {
    TimesC2Injective(Rotl31(Times(x, C1)), Rotl31(Times(y, C1)));
    Rotl31Injective(Times(x, C1), Times(y, C1));
    TimesC1Injective(x, y);
  }

  lemma MixK2Injective(x: u64, y: u64)
    requires MixK2(x) == MixK2(y)
    ensures x == y
  {
    TimesC1Injective(Rotl33(Times(x, C2)), Rotl33(Times(y, C2)));
    Rotl33Injective(Times(x, C2), Times(y, C2));
    TimesC2Injective(x, y);
  }

  lemma StirInjective(x: u64, y: u64, other: u64, c: nat)
    requires Stir(x, other, c) == Stir(y, other, c)
    ensures x == y
  {
    PlusInjective(Times(Plus(x, other), 5), Times(Plus(y, other), 5), c);
    AffineInjective(Plus(x, other), Plus(y, other), 5, 0xcccccccccccccccd, 4, 0);
    PlusInjective(x, y, other);
  }

  /** A round loses nothing of the state. */
  lemma RoundInjective(g: State, h: State, k1: u64, k2: u64)
    ensures Round(g, k1, k2) == Round(h, k1, k2) ==> g == h
  {
    if Round(g, k1, k2) == Round(h, k1, k2) {
      var h1, m1, m2 := Round(g, k1, k2).h1, MixK1(k1), MixK2(k2);
      StirInjective(Rotl31(Xor64(g.h2, m2)), Rotl31(Xor64(h.h2, m2)), h1, 0x38495ab5);
      Rotl31Injective(Xor64(g.h2, m2), Xor64(h.h2, m2));
      XorCancels(g.h2, h.h2, m2);
      StirInjective(Rotl27(Xor64(g.h1, m1)), Rotl27(Xor64(h.h1, m1)), h.h2, 0x52dce729);
      Rotl27Injective(Xor64(g.h1, m1), Xor64(h.h1, m1));
      XorCancels(g.h1, h.h1, m1);
    }
  }

  /** A round loses nothing of the block. */
  lemma RoundKeepsBlock(h: State, k1: u64, k2: u64, l1: u64, l2: u64)
    ensures Round(h, k1, k2) == Round(h, l1, l2) ==> k1 == l1 && k2 == l2
  {
    if Round(h, k1, k2) == Round(h, l1, l2) {
      var h1 := Round(h, k1, k2).h1;
      StirInjective(Rotl27(Xor64(h.h1, MixK1(k1))), Rotl27(Xor64(h.h1, MixK1(l1))), h.h2, 0x52dce729);
      Rotl27Injective(Xor64(h.h1, MixK1(k1)), Xor64(h.h1, MixK1(l1)));
      XorCancels(MixK1(k1), MixK1(l1), h.h1);
      MixK1Injective(k1, l1);
      StirInjective(Rotl31(Xor64(h.h2, MixK2(k2))), Rotl31(Xor64(h.h2, MixK2(l2))), h1, 0x38495ab5);
      Rotl31Injective(Xor64(h.h2, MixK2(k2)), Xor64(h.h2, MixK2(l2)));
      XorCancels(MixK2(k2), MixK2(l2), h.h2);
      MixK2Injective(k2, l2);
    }
  }

  lemma TimesM1Injective(x: u64, y: u64)
    requires Times(x, 0xff51afd7ed558ccd) == Times(y, 0xff51afd7ed558ccd)
    ensures x == y
  {
    AffineInjective(x, y, 0xff51afd7ed558ccd, 0x4f74430c22a54005, 0x4f3e2925cb7c5b4e, 0);
  }

  lemma TimesM2Injective(x: u64, y: u64)
    requires Times(x, 0xc4ceb9fe1a85ec53) == Times(y, 0xc4ceb9fe1a85ec53)
    ensures x == y
  {
    AffineInjective(x, y, 0xc4ceb9fe1a85ec53, 0x9cb4b2f8129337db, 0x7878e44812b2d581, 0);
  }

  lemma FmixInjective(x: u64, y: u64)
    ensures Fmix(x) == Fmix(y) ==> x == y
  {
    if Fmix(x) == Fmix(y) {
      var a, b := Times(XorShift33(x), 0xff51afd7ed558ccd), Times(XorShift33(y), 0xff51afd7ed558ccd);
      XorShiftInjective(Times(XorShift33(a), 0xc4ceb9fe1a85ec53), Times(XorShift33(b), 0xc4ceb9fe1a85ec53));
      TimesM2Injective(XorShift33(a), XorShift33(b));
      XorShiftInjective(a, b);
      TimesM1Injective(XorShift33(x), XorShift33(y));
      XorShiftInjective(x, y);
    }
  }

  lemma AddBothInjective(g: State, h: State)
    requires AddBoth(g) == AddBoth(h)
    ensures g == h
  {
    PlusInjective(g.h2, h.h2, AddBoth(g).h1);
    PlusInjective(g.h1, h.h1, h.h2);
  }

  lemma FinishInjective(g: State, h: State, len: u64)
    ensures Finish(g, len) == Finish(h, len) ==> g == h
  {
    if Finish(g, len) == Finish(h, len) {
      var a := AddBoth(State(Xor64(g.h1, len), Xor64(g.h2, len)));
      var b := AddBoth(State(Xor64(h.h1, len), Xor64(h.h2, len)));
      AddBothInjective(State(Fmix(a.h1), Fmix(a.h2)), State(Fmix(b.h1), Fmix(b.h2)));
      FmixInjective(a.h1, b.h1);
      FmixInjective(a.h2, b.h2);
      AddBothInjective(State(Xor64(g.h1, len), Xor64(g.h2, len)), State(Xor64(h.h1, len), Xor64(h.h2, len)));
      XorCancels(g.h1, h.h1, len);
      XorCancels(g.h2, h.h2, len);
    }
  }

  lemma TailMixInjective(signed: bool, g: State, h: State, t: seq<byte>)
    ensures TailMix(signed, g, t) == TailMix(signed, h, t) ==> g == h
  {
    var first, second := if |t| <= 8 then t else t[..8], if |t| <= 8 then [] else t[8..];
    if TailMix(signed, g, t) == TailMix(signed, h, t) {
      if first != [] {
        XorCancels(g.h1, h.h1, MixK1(Packed(signed, first)));
      }
      if second != [] {
        XorCancels(g.h2, h.h2, MixK2(Packed(signed, second)));
      }
    }
  }

  // ----- The packed tail

  lemma ModMod(q: nat, d: nat, e: nat)
    requires d > 0 && e > 0 && d * e == 0x100_0000_0000_0000
    ensures q % 0x100_0000_0000_0000 % d == q % d
  {
    var m := 0x100_0000_0000_0000;
    var r := q % m;
    assert r == r / d * d + r % d;
    assert q == q / m * m + r;
    assert q / m * m == q / m * e * d;
    assert q == (q / m * e + r / d) * d + r % d;
    RemainderIs(q, d, q / m * e + r / d, r % d);
  }

  lemma DivMod(a: nat, d: nat)
    requires d > 0
    ensures a == a / d * d + a % d && 0 <= a % d < d && a / d >= 0
  {
  }

  lemma XorLow(a: nat, low: nat, b: nat, low': nat, k: nat, d: nat)
    requires d == Pow2(k) && low < d && low' < d
    ensures Xor(a * d + low, b * d + low') % d == Xor(low, low')
  {
    ProductSign(a, d);
    ProductSign(b, d);
    XorSplit(a, low, b, low', k, d);
    RemainderIs(Xor(a * d + low, b * d + low'), d, Xor(a, b), Xor(low, low'));
  }

  lemma XorMod(a: nat, b: nat, k: nat, d: nat)
    requires d > 0 && d == Pow2(k)
    ensures Xor(a, b) % d == Xor(a % d, b % d)
  {
    DivMod(a, d);
    DivMod(b, d);
    XorLow(a / d, a % d, b / d, b % d, k, d);
  }

  lemma XorByte(a: nat, low: byte, b: nat)
    ensures Xor(256 * a + low, 256 * b) == 256 * Xor(a, b) + low
  {
    SmallPowers();
    XorSplit(a, low, b, 0, 8, 256);
    XorZero(low);
  }

  /** The bits above the byte: all ones for a negative byte. */
  function Above(signed: bool, b: byte): nat {
    if signed && b >= 0x80 then 0xff_ffff_ffff_ffff else 0
  }

  lemma ExtendParts(signed: bool, b: byte)
    ensures Extend(signed, b) == 256 * Above(signed, b) + b
  {
  }

  lemma ShiftParts(q: u64)
    ensures Times(q, 256) == 256 * (q % 0x100_0000_0000_0000)
  {
  }

  /** The lowest byte is the first tail byte, whatever the others are. */
  lemma PackedParts(signed: bool, t: seq<byte>)
    requires t != []
    ensures Packed(signed, t) == 256 * Xor(Above(signed, t[0]), Packed(signed, t[1..]) % 0x100_0000_0000_0000) + t[0]
  {
    ExtendParts(signed, t[0]);
    ShiftParts(Packed(signed, t[1..]));
    XorByte(Above(signed, t[0]), t[0], Packed(signed, t[1..]) % 0x100_0000_0000_0000);
  }

  /** `d` is 256 to the power of one of 0 to 7. */
  ghost predicate BytePower(k: nat, d: nat) {
    k <= 7 && d > 0 && d == Pow2(8 * k) && d * Pow2(8 * (7 - k)) == 0x100_0000_0000_0000
  }

  lemma Pow56()
    ensures Pow2(56) == 0x100_0000_0000_0000 && Pow2(8) == 256
  {
    SmallPowers();
    PowAdd(8, 8);
    PowAdd(16, 16);
    PowAdd(16, 32);
    PowAdd(8, 48);
  }

  lemma BytePowers(k: nat)
    requires k <= 7
    ensures BytePower(k, Pow2(8 * k)) && (k > 0 ==> Pow2(8 * k) == 256 * Pow2(8 * (k - 1)))
  {
    Pow56();
    PowAdd(8 * k, 8 * (7 - k));
    if k > 0 {
      PowAdd(8, 8 * (k - 1));
    }
  }

  lemma Whole(x: u64)
    ensures x % TWO_64 == x
  {
  }

  lemma TopPower()
    ensures BytePower(7, 0x100_0000_0000_0000)
  {
    Pow56();
    BytePowers(7);
  }

  /** The low bytes of the packed tail, one byte at a time. */
  lemma PackedLow(signed: bool, t: seq<byte>, k: nat, d: nat, m: nat)
    requires t != [] && BytePower(k, d) && m == 256 * d
    ensures Packed(signed, t) % m ==
            256 * Xor(Above(signed, t[0]) % d, Packed(signed, t[1..]) % d) + t[0]
  {
    var e, q := Above(signed, t[0]), Packed(signed, t[1..]);
    var r := q % 0x100_0000_0000_0000;
    PackedParts(signed, t);
    XorMod(e, r, 8 * k, d);
    ModMod(q, d, Pow2(8 * (7 - k)));
    LowDigits(Xor(e, r), t[0], d, m);
  }

  lemma LowDigits(x: nat, b: byte, d: nat, m: nat)
    requires d > 0 && m == 256 * d
    ensures (256 * x + b) % m == 256 * (x % d) + b
  {
    assert x == x / d * d + x % d;
    assert 256 * x + b == x / d * m + (256 * (x % d) + b);
    RemainderIs(256 * x + b, m, x / d, 256 * (x % d) + b);
  }

  lemma SameDigits(x: nat, b: byte, y: nat, c: byte)
    requires 256 * x + b == 256 * y + c
    ensures x == y && b == c
  {
  }

  lemma {:induction false} PackedInjectiveLow(signed: bool, t: seq<byte>, u: seq<byte>, k: nat, d: nat, m: nat)
    requires |t| == |u| <= k + 1 && BytePower(k, d) && m == 256 * d
    requires Packed(signed, t) % m == Packed(signed, u) % m
    ensures t == u
    decreases k
  {
    if t != [] {
      var q, q' := Packed(signed, t[1..]) % d, Packed(signed, u[1..]) % d;
      PackedLow(signed, t, k, d, m);
      PackedLow(signed, u, k, d, m);
      SameDigits(Xor(Above(signed, t[0]) % d, q), t[0], Xor(Above(signed, u[0]) % d, q'), u[0]);
      XorCancels(q, q', Above(signed, t[0]) % d);
      if k > 0 {
        BytePowers(k);
        BytePowers(k - 1);
        PackedInjectiveLow(signed, t[1..], u[1..], k - 1, Pow2(8 * (k - 1)), d);
      }
      assert t == [t[0]] + t[1..] && u == [u[0]] + u[1..];
    }
  }

  /** Sign extension does not make two tails alike. */
  lemma PackedInjective(signed: bool, t: seq<byte>, u: seq<byte>)
    requires |t| == |u| <= 8 && Packed(signed, t) == Packed(signed, u)
    ensures t == u
  {
    TopPower();
    Whole(Packed(signed, t));
    Whole(Packed(signed, u));
    PackedInjectiveLow(signed, t, u, 7, 0x100_0000_0000_0000, TWO_64);
  }

  // ----- No collisions within a block or within the tail

  lemma {:induction false} LoadInjective(b: seq<byte>, c: seq<byte>)
    requires |b| == |c| && LittleEndian(b) == LittleEndian(c)
    ensures b == c
  {
    if b != [] {
      SameDigits(LittleEndian(b[1..]), b[0], LittleEndian(c[1..]), c[0]);
      LoadInjective(b[1..], c[1..]);
      assert b == [b[0]] + b[1..] && c == [c[0]] + c[1..];
    }
  }

  /** The keys agree outside positions `from` to `to`. */
  predicate DifferOnlyIn(k: seq<byte>, l: seq<byte>, from: nat, to: nat) {
    |k| == |l| && forall i | 0 <= i < |k| && !(from <= i < to) :: k[i] == l[i]
  }

  lemma BlocksDecide(k: seq<byte>, l: seq<byte>, i: nat)
    requires |k| == |l| && 16 * i + 16 <= |k| && BlocksOf(k)[i] == BlocksOf(l)[i]
    ensures k[16 * i..16 * i + 16] == l[16 * i..16 * i + 16]
  {
    var p := 16 * i;
    LoadInjective(k[p..p + 8], l[p..p + 8]);
    LoadInjective(k[p + 8..p + 16], l[p + 8..p + 16]);
    assert k[p..p + 16] == k[p..p + 8] + k[p + 8..p + 16];
    assert l[p..p + 16] == l[p..p + 8] + l[p + 8..p + 16];
  }

  lemma SameBlock(k: seq<byte>, l: seq<byte>, i: nat)
    requires |k| == |l| && 16 * i + 16 <= |k| && forall j | 16 * i <= j < 16 * i + 16 :: k[j] == l[j]
    ensures BlocksOf(k)[i] == BlocksOf(l)[i]
  {
    var p := 16 * i;
    assert k[p..p + 8] == l[p..p + 8] && k[p + 8..p + 16] == l[p + 8..p + 16];
  }

  /** A difference in block `b` survives the rest of the body. */
  lemma {:induction false} BodyDiffers(seed: u64, x: Blocks, y: Blocks, b: nat)
    requires b < |x| == |y| && x[b] != y[b] && forall i | 0 <= i < |x| && i != b :: x[i] == y[i]
    ensures Body(seed, x) != Body(seed, y)
  {
    var n := |x| - 1;
    var g, h := Body(seed, x[..n]), Body(seed, y[..n]);
    if b == n {
      assert x[..n] == y[..n];
      RoundKeepsBlock(g, x[n].0, x[n].1, y[n].0, y[n].1);
    } else {
      BodyDiffers(seed, x[..n], y[..n], b);
      RoundInjective(g, h, x[n].0, x[n].1);
    }
  }

  lemma Difference(k: seq<byte>, l: seq<byte>, from: nat, to: nat) returns (j: nat)
    requires DifferOnlyIn(k, l, from, to) && k != l
    ensures from <= j < to && j < |k| && k[j] != l[j]
  {
    j :| 0 <= j < |k| && k[j] != l[j];
  }

  lemma BlockDiffers(k: seq<byte>, l: seq<byte>, b: nat)
    requires DifferOnlyIn(k, l, 16 * b, 16 * b + 16) && k != l && 16 * b + 16 <= |k|
    ensures BlocksOf(k)[b] != BlocksOf(l)[b]
  {
    var j := Difference(k, l, 16 * b, 16 * b + 16);
    var x, y := k[16 * b..16 * b + 16], l[16 * b..16 * b + 16];
    assert x[j - 16 * b] != y[j - 16 * b];
    if BlocksOf(k)[b] == BlocksOf(l)[b] {
      BlocksDecide(k, l, b);
    }
  }

  lemma OthersAgree(k: seq<byte>, l: seq<byte>, b: nat)
    requires DifferOnlyIn(k, l, 16 * b, 16 * b + 16)
    ensures forall i | 0 <= i < |k| / 16 && i != b :: BlocksOf(k)[i] == BlocksOf(l)[i]
  {
    forall i | 0 <= i < |k| / 16 && i != b ensures BlocksOf(k)[i] == BlocksOf(l)[i] {
      SameBlock(k, l, i);
    }
  }

  lemma TailsAgree(k: seq<byte>, l: seq<byte>, b: nat)
    requires DifferOnlyIn(k, l, 16 * b, 16 * b + 16) && 16 * b + 16 <= |k|
    ensures Tail(k) == Tail(l)
  {
    var p := |k| / 16 * 16;
    assert 16 * b + 16 <= p;
    forall i | p <= i < |k| ensures k[i] == l[i] {
    }
    assert k[p..] == l[p..];
  }

  lemma TailsDiffer(k: seq<byte>, l: seq<byte>, b: nat)
    requires DifferOnlyIn(k, l, 16 * b, 16 * b + 16) && k != l && 16 * b + 16 > |k|
    ensures BlocksOf(k) == BlocksOf(l) && Tail(k) != Tail(l)
  {
    OthersAgree(k, l, b);
    var p := |k| / 16 * 16;
    var j := Difference(k, l, 16 * b, 16 * b + 16);
    assert p <= 16 * b;
    assert Tail(k)[j - p] != Tail(l)[j - p];
  }

  lemma TailsDecide(signed: bool, h: State, t: seq<byte>, u: seq<byte>)
    requires |t| == |u| <= 15
    ensures TailMix(signed, h, t) == TailMix(signed, h, u) ==> t == u
  {
    if TailMix(signed, h, t) == TailMix(signed, h, u) {
      var first, first' := if |t| <= 8 then t else t[..8], if |u| <= 8 then u else u[..8];
      var second, second' := if |t| <= 8 then [] else t[8..], if |u| <= 8 then [] else u[8..];
      if first != [] {
        XorCancels(MixK1(Packed(signed, first)), MixK1(Packed(signed, first')), h.h1);
        MixK1Injective(Packed(signed, first), Packed(signed, first'));
        PackedInjective(signed, first, first');
      }
      if second != [] {
        XorCancels(MixK2(Packed(signed, second)), MixK2(Packed(signed, second')), h.h2);
        MixK2Injective(Packed(signed, second), Packed(signed, second'));
        PackedInjective(signed, second, second');
      }
      assert t == first + second && u == first' + second';
    }
  }

  /** Two keys of one length that differ in a single block, or in the tail only, never collide. */
  lemma NoCollision(signed: bool, k: Key, l: Key, seed: u64, b: nat)
    requires DifferOnlyIn(k, l, 16 * b, 16 * b + 16) && k != l
    ensures Hash(signed, k, seed) != Hash(signed, l, seed)
  {
    var g, h := Body(seed, BlocksOf(k)), Body(seed, BlocksOf(l));
    if 16 * b + 16 <= |k| {
      BlockDiffers(k, l, b);
      OthersAgree(k, l, b);
      TailsAgree(k, l, b);
      BodyDiffers(seed, BlocksOf(k), BlocksOf(l), b);
      TailMixInjective(signed, g, h, Tail(k));
    } else {
      TailsDiffer(k, l, b);
      TailsDecide(signed, g, Tail(k), Tail(l));
    }
    FinishInjective(TailMix(signed, g, Tail(k)), TailMix(signed, h, Tail(l)), |k|);
  }

  // ----- Against the original hash

  lemma LowestBit(signed: bool, t: seq<byte>, k: nat, d: nat, m: nat)
    requires BytePower(k, d) && m == 256 * d
    ensures Packed(signed, t) % m % 2 == (if t == [] then 0 else t[0] % 2)
  {
    if t == [] {
      RemainderIs(0, m, 0, 0);
    } else {
      PackedLow(signed, t, k, d, m);
      LowBit(Xor(Above(signed, t[0]) % d, Packed(signed, t[1..]) % d), t[0]);
    }
  }

  lemma LowBit(x: nat, b: byte)
    ensures (256 * x + b) % 2 == b % 2
  {
  }

  lemma AllOnes(d: nat, e: nat)
    requires d > 0 && e > 0 && d * e == 0x100_0000_0000_0000
    ensures 0xff_ffff_ffff_ffff % d == d - 1
  {
    assert (e - 1) * d == d * e - d;
    RemainderIs(0xff_ffff_ffff_ffff, d, e - 1, d - 1);
  }

  /** No byte that has bits of the word above it is negative. */
  predicate NoneExtended(t: seq<byte>, k: nat) {
    forall i | 0 <= i < |t| && i < k :: t[i] < 0x80
  }

  lemma PlainFirst(t: seq<byte>, k: nat, d: nat, m: nat)
    requires t != [] && t[0] < 0x80 && BytePower(k, d) && m == 256 * d
    ensures Packed(true, t) % m == Packed(false, t) % m <==>
            Packed(true, t[1..]) % d == Packed(false, t[1..]) % d
  {
    var q, q' := Packed(true, t[1..]) % d, Packed(false, t[1..]) % d;
    PackedLow(true, t, k, d, m);
    PackedLow(false, t, k, d, m);
    RemainderIs(0, d, 0, 0);
    if Xor(0, q) == Xor(0, q') {
      XorCancels(q, q', 0);
    }
  }

  lemma FlippedBit(ones: nat, q: nat, q': nat)
    requires ones % 2 == 1 && q % 2 == q' % 2
    ensures Xor(ones, q) != Xor(0, q')
  {
    XorDigits(ones, q);
    XorDigits(0, q');
  }

  lemma OnesBelow(k: nat, d: nat)
    requires BytePower(k, d)
    ensures 0xff_ffff_ffff_ffff % d == d - 1 && 0 % d == 0
  {
    AllOnes(d, Pow2(8 * (7 - k)));
    RemainderIs(0, d, 0, 0);
  }

  lemma OtherDigits(p: nat, p': nat, x: nat, y: nat, b: byte)
    requires p == 256 * x + b && p' == 256 * y + b && x != y
    ensures p != p'
  {
  }

  lemma Even(d: nat)
    requires d % 2 == 0 && d > 0
    ensures (d - 1) % 2 == 1
  {
  }

  /** The low part of a tail whose first byte is negative. */
  lemma SignedLow(t: seq<byte>, k: nat, d: nat, m: nat, q: nat)
    requires t != [] && t[0] >= 0x80 && BytePower(k, d) && m == 256 * d && q == Packed(true, t[1..]) % d
    ensures Packed(true, t) % m == 256 * Xor(d - 1, q) + t[0]
  {
    PackedLow(true, t, k, d, m);
    OnesBelow(k, d);
  }

  lemma UnsignedLow(t: seq<byte>, k: nat, d: nat, m: nat, q: nat)
    requires t != [] && BytePower(k, d) && m == 256 * d && q == Packed(false, t[1..]) % d
    ensures Packed(false, t) % m == 256 * Xor(0, q) + t[0]
  {
    PackedLow(false, t, k, d, m);
    OnesBelow(k, d);
  }

  lemma FirstByteFlips(t: seq<byte>, k: nat, d: nat, m: nat)
    requires t != [] && t[0] >= 0x80 && BytePower(k, d) && m == 256 * d && d % 2 == 0
    requires Packed(true, t[1..]) % d % 2 == Packed(false, t[1..]) % d % 2
    ensures Packed(true, t) % m != Packed(false, t) % m
  {
    var q, q' := Packed(true, t[1..]) % d, Packed(false, t[1..]) % d;
    SignedLow(t, k, d, m, q);
    UnsignedLow(t, k, d, m, q');
    Even(d);
    FlippedBit(d - 1, q, q');
    OtherDigits(Packed(true, t) % m, Packed(false, t) % m, Xor(d - 1, q), Xor(0, q'), t[0]);
  }

  lemma NegativeFirst(t: seq<byte>, k: nat, d: nat, d': nat, m: nat)
    requires t != [] && t[0] >= 0x80 && BytePower(k + 1, d) && BytePower(k, d') && d == 256 * d' && m == 256 * d
    ensures Packed(true, t) % m != Packed(false, t) % m
  {
    LowestBit(true, t[1..], k, d', d);
    LowestBit(false, t[1..], k, d', d);
    LowBit(d', 0);
    FirstByteFlips(t, k + 1, d, m);
  }

  lemma NextExtended(t: seq<byte>, k: nat)
    requires t != [] && t[0] < 0x80 && k > 0
    ensures NoneExtended(t, k) <==> NoneExtended(t[1..], k - 1)
  {
    assert forall i | 0 < i < |t| :: t[i] == t[1..][i - 1];
    assert forall i | 0 <= i < |t| - 1 :: t[1..][i] == t[i + 1];
  }

  lemma {:induction false} SameLowExactlyWhen(t: seq<byte>, k: nat, d: nat, m: nat)
    requires |t| <= k + 1 && BytePower(k, d) && m == 256 * d
    ensures Packed(true, t) % m == Packed(false, t) % m <==> NoneExtended(t, k)
    decreases k
  {
    if t != [] {
      if k == 0 {
        OnlyByte(t, d, m);
      } else {
        BytePowers(k);
        BytePowers(k - 1);
        if t[0] >= 0x80 {
          NegativeFirst(t, k - 1, d, Pow2(8 * (k - 1)), m);
        } else {
          PlainFirst(t, k, d, m);
          SameLowExactlyWhen(t[1..], k - 1, Pow2(8 * (k - 1)), d);
          NextExtended(t, k);
        }
      }
    }
  }

  lemma OnlyByte(t: seq<byte>, d: nat, m: nat)
    requires t != [] && BytePower(0, d) && m == 256 * d
    ensures Packed(true, t) % m == Packed(false, t) % m
  {
    PackedLow(true, t, 0, d, m);
    PackedLow(false, t, 0, d, m);
    ModOne(Above(true, t[0]), d);
    ModOne(Packed(true, t[1..]), d);
    ModOne(Packed(false, t[1..]), d);
    ModOne(0, d);
  }

  lemma ModOne(x: nat, d: nat)
    requires d == Pow2(0)
    ensures x % d == 0
  {
  }

  lemma PackedAlike(t: seq<byte>)
    requires |t| <= 8
    ensures Packed(true, t) == Packed(false, t) <==> NoneExtended(t, 7)
  {
    TopPower();
    SameLowExactlyWhen(t, 7, 0x100_0000_0000_0000, TWO_64);
    Whole(Packed(true, t));
    Whole(Packed(false, t));
  }

  predicate OnlyEighthNegative(t: seq<byte>) {
    forall i | 0 <= i < |t| && i != 7 :: t[i] < 0x80
  }

  lemma BothParts(t: seq<byte>)
    requires |t| <= 15
    ensures var first, second := if |t| <= 8 then t else t[..8], if |t| <= 8 then [] else t[8..];
            OnlyEighthNegative(t) <==> NoneExtended(first, 7) && NoneExtended(second, 7)
  {
    if |t| > 8 {
      assert forall i | 8 <= i < |t| :: t[i] == t[8..][i - 8];
      assert forall i | 0 <= i < |t| - 8 :: t[8..][i] == t[i + 8];
    }
  }

  /** Exactly when no tail byte other than the eighth is negative, the driver's result is the one of
      the original hash; that byte ends up on top of its word, where there is nothing to extend into. */
  lemma MatchesOriginalExactlyWhen(key: Key, seed: u64)
    ensures Hash(true, key, seed) == Hash(false, key, seed) <==> OnlyEighthNegative(Tail(key))
  {
    var t, b := Tail(key), Body(seed, BlocksOf(key));
    PackedAlike(if |t| <= 8 then t else t[..8]);
    PackedAlike(if |t| <= 8 then [] else t[8..]);
    BothParts(t);
    TailMixesAlike(b, t);
    var g, h := TailMix(true, b, t), TailMix(false, b, t);
    FinishInjective(g, h, |key|);
  }

  /** One byte that is not ASCII is enough to tell the two apart. */
  lemma OriginalDiffers(seed: u64)
    ensures Hash(true, [0x80], seed) != Hash(false, [0x80], seed)
  {
    MatchesOriginalExactlyWhen([0x80], seed);
    assert Tail([0x80]) == [0x80] && Tail([0x80])[0] == 0x80;
  }

  lemma TailMixesAlike(h: State, t: seq<byte>)
    ensures var first, second := if |t| <= 8 then t else t[..8], if |t| <= 8 then [] else t[8..];
            TailMix(true, h, t) == TailMix(false, h, t) <==>
            Packed(true, first) == Packed(false, first) && Packed(true, second) == Packed(false, second)
  {
    var first, second := if |t| <= 8 then t else t[..8], if |t| <= 8 then [] else t[8..];
    if TailMix(true, h, t) == TailMix(false, h, t) {
      if first != [] {
        XorCancels(MixK1(Packed(true, first)), MixK1(Packed(false, first)), h.h1);
        MixK1Injective(Packed(true, first), Packed(false, first));
      }
      if second != [] {
        XorCancels(MixK2(Packed(true, second)), MixK2(Packed(false, second)), h.h2);
        MixK2Injective(Packed(true, second), Packed(false, second));
      }
    }
  }

  // ----- The hash as it is computed

  lemma TimesTwice(x: nat, c: nat, p: nat)
    ensures Times(Times(x, c), p) == Times(x, c * p)
  {
    var y := x * c;
    ProductSign(x, c);
    assert y == y / TWO_64 * TWO_64 + y % TWO_64;
    var z := y % TWO_64 * p;
    ProductSign(y % TWO_64, p);
    assert y * p == y / TWO_64 * p * TWO_64 + z;
    assert x * (c * p) == y * p;
    assert z == z / TWO_64 * TWO_64 + z % TWO_64;
    assert y * p == (y / TWO_64 * p + z / TWO_64) * TWO_64 + z % TWO_64;
    ProductSign(y / TWO_64, p);
    RemainderIs(y * p, TWO_64, y / TWO_64 * p + z / TWO_64, z % TWO_64);
  }

  lemma XorScaled(a: nat, b: nat, k: nat, p: nat)
    requires p == Pow2(k)
    ensures a * p >= 0 && b * p >= 0 && Xor(a * p, b * p) == Xor(a, b) * p
  {
    ProductSign(a, p);
    ProductSign(b, p);
    XorSplit(a, 0, b, 0, k, p);
  }

  lemma XorWraps(x: nat, y: nat)
    ensures Xor(x, y) % TWO_64 == Xor(x % TWO_64, y % TWO_64)
  {
    Pow64();
    XorMod(x, y, 64, TWO_64);
  }

  /** Shifting left distributes over exclusive or. */
  lemma XorTimes(a: u64, b: u64, k: nat, p: nat)
    requires p == Pow2(k)
    ensures Times(Xor64(a, b), p) == Xor64(Times(a, p), Times(b, p))
  {
    XorScaled(a, b, k, p);
    XorWraps(a * p, b * p);
  }

  lemma PackedShifted(t: seq<byte>, k: nat, p: nat)
    requires t != [] && p == Pow2(k)
    ensures Times(Packed(true, t), p) ==
            Xor64(Times(Packed(true, t[1..]), 256 * p), Times(Extend(true, t[0]), p))
  {
    var e, q := Extend(true, t[0]), Packed(true, t[1..]);
    XorTimes(e, Times(q, 256), k, p);
    TimesTwice(q, 256, p);
    XorCommutes(Times(e, p), Times(q, 256 * p));
  }

  /** A word of the tail, from its last byte to its first. */
  method PackTail(t: seq<byte>) returns (k: u64)
    ensures k == Packed(true, t)
  {
    k := 0;
    for j := |t| downto 0
      invariant k == Times(Packed(true, t[j..]), Pow2(8 * j))
    {
      var p := Pow2(8 * j);
      PowAdd(8, 8 * j);
      SmallPowers();
      PackedShifted(t[j..], 8 * j, p);
      assert t[j..][1..] == t[j + 1..];
      k := Xor64(k, Times(Extend(true, t[j]), p));
    }
    assert t[0..] == t;
    Whole(Packed(true, t));
  }

  method MurmurHash3_x64_128(key: Key, seed: u64) returns (r: u64)
    requires seed < 0x1_0000_0000
    ensures r == Hash(true, key, seed).h1
  {
    var nblocks := |key| / 16;
    var h1, h2 := seed, seed;
    ghost var blocks := BlocksOf(key);
    for i := 0 to nblocks
      invariant State(h1, h2) == Body(seed, blocks[..i])
    {
      assert blocks[..i + 1][..i] == blocks[..i];
      var k1, k2 := Block(key, 2 * i), Block(key, 2 * i + 1);
      k1 := Times(k1, C1);
      k1 := Rotl31(k1);
      k1 := Times(k1, C2);
      h1 := Xor64(h1, k1);

      h1 := Rotl27(h1);
      h1 := Plus(h1, h2);
      h1 := Plus(Times(h1, 5), 0x52dce729);

      k2 := Times(k2, C2);
      k2 := Rotl33(k2);
      k2 := Times(k2, C1);
      h2 := Xor64(h2, k2);

      h2 := Rotl31(h2);
      h2 := Plus(h2, h1);
      h2 := Plus(Times(h2, 5), 0x38495ab5);
    }
    assert blocks[..nblocks] == blocks;
    var tail := key[nblocks * 16..];
    if |tail| > 8 {
      var k2 := PackTail(tail[8..]);
      h2 := Xor64(h2, MixK2(k2));
    }
    if |tail| > 0 {
      var k1 := PackTail(if |tail| <= 8 then tail else tail[..8]);
      h1 := Xor64(h1, MixK1(k1));
    }

    h1, h2 := Xor64(h1, |key|), Xor64(h2, |key|);
    h1 := Plus(h1, h2);
    h2 := Plus(h2, h1);
    h1 := Fmix(h1);
    h2 := Fmix(h2);
    h1 := Plus(h1, h2);
    return h1;
  }
}
