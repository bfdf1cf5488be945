/**
 Values the hash functions are known to give. They fix the constants, the rotations and the order of
 the steps, which no law about collisions can.
 */
module HashVectors {

  import opened Prelude
  import opened Vint
  import opened Words
  import M = Murmur3
  import S = StringHash

  // ----- Exclusive or, byte by byte

  lemma Halves(u: bv8)
    ensures u as nat == 2 * ((u >> 1) as nat) + ((u & 1) as nat)
  {
  }

  lemma XorHalves(u: bv8, v: bv8)
    ensures (u ^ v) >> 1 == (u >> 1) ^ (v >> 1)
    ensures ((u ^ v) & 1) as nat == if (u & 1) as nat == (v & 1) as nat then 0 else 1
    ensures (u & 1) as nat < 2 && (v & 1) as nat < 2
  {
  }

  lemma XorFromHalves(x: nat, y: nat, z: nat, a: nat, b: nat, c: nat, i: nat, j: nat)
    requires x == 2 * a + i && y == 2 * b + j && z == 2 * c + (if i == j then 0 else 1) && i < 2 && j < 2
    requires Xor(a, b) == c
    ensures Xor(x, y) == z
  {
    assert x / 2 == a && y / 2 == b && x % 2 == i && y % 2 == j;
    XorDigits(x, y);
  }

  lemma Parts(u: bv8, v: bv8)
    ensures u as nat == 2 * ((u >> 1) as nat) + ((u & 1) as nat) && (u & 1) as nat < 2
    ensures v as nat == 2 * ((v >> 1) as nat) + ((v & 1) as nat) && (v & 1) as nat < 2
    ensures (u ^ v) as nat == 2 * (((u ^ v) >> 1) as nat) + (if (u & 1) as nat == (v & 1) as nat then 0 else 1)
  {
    Halves(u);
    Halves(v);
    Halves(u ^ v);
    XorHalves(u, v);
  }

  lemma XorOfHalves(u: bv8, v: bv8)
    requires Xor((u >> 1) as nat, (v >> 1) as nat) == ((u ^ v) >> 1) as nat
    ensures Xor(u as nat, v as nat) == (u ^ v) as nat
  {
    Parts(u, v);
    XorFromHalves(u as nat, v as nat, (u ^ v) as nat, (u >> 1) as nat, (v >> 1) as nat, ((u ^ v) >> 1) as nat,
                  (u & 1) as nat, (v & 1) as nat);
  }

  lemma {:induction false} XorOfBytes(u: bv8, v: bv8)
    ensures Xor(u as nat, v as nat) == (u ^ v) as nat
    decreases u as nat + v as nat
  {
    if u != 0 || v != 0 {
      Smaller(u, v);
      XorOfBytes(u >> 1, v >> 1);
      XorHalves(u, v);
      XorOfHalves(u, v);
    }
  }

  lemma Smaller(u: bv8, v: bv8)
    requires u != 0 || v != 0
    ensures (u >> 1) as nat + (v >> 1) as nat < u as nat + v as nat
  {
    Halves(u);
    Halves(v);
    assert u != 0 ==> u as nat > 0;
    assert v != 0 ==> v as nat > 0;
  }

  function Put(a: nat, x: nat): nat {
    a * 256 + x
  }

  lemma PutXor(a: nat, b: nat, x: nat, y: nat, z: nat)
    requires x < 256 && y < 256 && Xor(x, y) == z
    ensures Xor(Put(a, x), Put(b, y)) == Put(Xor(a, b), z)
  {
    SmallPowers();
    XorSplit(a, x, b, y, 8, 256);
  }

  lemma XorPut(a: nat, b: nat, u: bv8, v: bv8)
    ensures Xor(Put(a, u as nat), Put(b, v as nat)) == Put(Xor(a, b), (u ^ v) as nat)
  {
    XorOfBytes(u, v);
    PutXor(a, b, u as nat, v as nat, (u ^ v) as nat);
  }

  function Word(a: bv8, b: bv8, c: bv8, d: bv8, e: bv8, f: bv8, g: bv8, h: bv8): nat {
    var w := Put(Put(Put(Put(0, a as nat), b as nat), c as nat), d as nat);
    Put(Put(Put(Put(w, e as nat), f as nat), g as nat), h as nat)
  }

  lemma XorWord(a: bv8, b: bv8, c: bv8, d: bv8, e: bv8, f: bv8, g: bv8, h: bv8,
                p: bv8, q: bv8, r: bv8, s: bv8, t: bv8, u: bv8, v: bv8, w: bv8)
    ensures Xor(Word(a, b, c, d, e, f, g, h), Word(p, q, r, s, t, u, v, w)) ==
            Word(a ^ p, b ^ q, c ^ r, d ^ s, e ^ t, f ^ u, g ^ v, h ^ w)
  {
    var x1, y1 := Put(0, a as nat), Put(0, p as nat);
    var x2, y2 := Put(x1, b as nat), Put(y1, q as nat);
    var x3, y3 := Put(x2, c as nat), Put(y2, r as nat);
    var x4, y4 := Put(x3, d as nat), Put(y3, s as nat);
    var x5, y5 := Put(x4, e as nat), Put(y4, t as nat);
    var x6, y6 := Put(x5, f as nat), Put(y5, u as nat);
    var x7, y7 := Put(x6, g as nat), Put(y6, v as nat);
    XorPut(0, 0, a, p);
    XorPut(x1, y1, b, q);
    XorPut(x2, y2, c, r);
    XorPut(x3, y3, d, s);
    XorPut(x4, y4, e, t);
    XorPut(x5, y5, f, u);
    XorPut(x6, y6, g, v);
    XorPut(x7, y7, h, w);
  }

  /** The exclusive or of two words given by their bytes. */
  lemma XorIs(x: u64, y: u64, a: bv8, b: bv8, c: bv8, d: bv8, e: bv8, f: bv8, g: bv8, h: bv8,
              p: bv8, q: bv8, r: bv8, s: bv8, t: bv8, u: bv8, v: bv8, w: bv8)
    requires x == Word(a, b, c, d, e, f, g, h) && y == Word(p, q, r, s, t, u, v, w)
    ensures Xor64(x, y) == Word(a ^ p, b ^ q, c ^ r, d ^ s, e ^ t, f ^ u, g ^ v, h ^ w)
  {
    XorWord(a, b, c, d, e, f, g, h, p, q, r, s, t, u, v, w);
  }

  lemma ShiftIs(x: u64, a: bv8, b: bv8, c: bv8, d: bv8, e: bv8, f: bv8, g: bv8, h: bv8,
                p: bv8, q: bv8, r: bv8, s: bv8, t: bv8, u: bv8, v: bv8, w: bv8)
    requires x == Word(a, b, c, d, e, f, g, h) && x / 0x2_0000_0000 == Word(p, q, r, s, t, u, v, w)
    ensures XorShift33(x) == Word(a ^ p, b ^ q, c ^ r, d ^ s, e ^ t, f ^ u, g ^ v, h ^ w)
  {
    XorIs(x, x / 0x2_0000_0000, a, b, c, d, e, f, g, h, p, q, r, s, t, u, v, w);
  }

  // ----- MurmurHash3

  lemma FmixIs(k: u64, a: u64, b: u64, c: u64, d: u64)
    requires XorShift33(k) == a && Times(a, 0xff51afd7ed558ccd) == b
    requires XorShift33(b) == c && Times(c, 0xc4ceb9fe1a85ec53) == d
    ensures M.Fmix(k) == XorShift33(d)
  {
  }

  lemma MixK1Is(k: u64, a: u64, b: u64, r: u64)
    requires Times(k, 0x87c37b91114253d5) == a && Rotl31(a) == b && Times(b, 0x4cf5ad432745937f) == r
    ensures M.MixK1(k) == r
  {
  }

  lemma MixK2Is(k: u64, a: u64, b: u64, r: u64)
    requires Times(k, 0x4cf5ad432745937f) == a && Rotl33(a) == b && Times(b, 0x87c37b91114253d5) == r
    ensures M.MixK2(k) == r
  {
  }

  lemma Products()
    ensures Times(0x3220_6e61_4a20_3931, M.C1) == 0x2d4_91d7_1efc_78c5
    ensures Times(0x8f7e_3c62_816a_48eb, M.C2) == 0x338f_7c70_aff0_1d95
    ensures Times(0x4120_3730_3a34_313a, M.C1) == 0x3063_c692_e456_c342
    ensures Times(0x722b_61a1_1831_e349, M.C2) == 0xa433_dffd_07ef_ac37
    ensures Times(0x3320_7461_2038_3330, M.C2) == 0xd040_9631_5d35_f4d0
    ensures Times(0xba6b_e9a1_a081_2c62, M.C1) == 0x85ff_f946_6021_b38a
    ensures Times(0x4d, M.C2) == 0x25e5_1d32_cfed_5d33
    ensures Times(0x9fda_ba66_4bca_3a65, M.C1) == 0x9a5c_d3e8_633b_5509
  {
  }

  lemma Rotations()
    ensures Rotl31(0x2d4_91d7_1efc_78c5) == 0x8f7e_3c62_816a_48eb
    ensures Rotl31(0x3063_c692_e456_c342) == 0x722b_61a1_1831_e349
    ensures Rotl33(0xd040_9631_5d35_f4d0) == 0xba6b_e9a1_a081_2c62
    ensures Rotl33(0x25e5_1d32_cfed_5d33) == 0x9fda_ba66_4bca_3a65
  {
  }

  lemma BlockK1(k: u64)
    requires k == 0x3220_6e61_4a20_3931
    ensures M.MixK1(k) == 0x338f_7c70_aff0_1d95
  {
    Products();
    Rotations();
    MixK1Is(0x3220_6e61_4a20_3931, 0x2d4_91d7_1efc_78c5, 0x8f7e_3c62_816a_48eb, 0x338f_7c70_aff0_1d95);
  }

  lemma BlockK2(k: u64)
    requires k == 0x3320_7461_2038_3330
    ensures M.MixK2(k) == 0x85ff_f946_6021_b38a
  {
    Products();
    Rotations();
    MixK2Is(0x3320_7461_2038_3330, 0xd040_9631_5d35_f4d0, 0xba6b_e9a1_a081_2c62, 0x85ff_f946_6021_b38a);
  }

  lemma TailK1(k: u64)
    requires k == 0x4120_3730_3a34_313a
    ensures M.MixK1(k) == 0xa433_dffd_07ef_ac37
  {
    Products();
    Rotations();
    MixK1Is(0x4120_3730_3a34_313a, 0x3063_c692_e456_c342, 0x722b_61a1_1831_e349, 0xa433_dffd_07ef_ac37);
  }

  lemma TailK2(k: u64)
    requires k == 0x4d
    ensures M.MixK2(k) == 0x9a5c_d3e8_633b_5509
  {
    Products();
    Rotations();
    MixK2Is(0x4d, 0x25e5_1d32_cfed_5d33, 0x9fda_ba66_4bca_3a65, 0x9a5c_d3e8_633b_5509);
  }

  lemma RoundIs(h: M.State, k1: u64, k2: u64, x: u64, y: u64, h1: u64, h2: u64)
    requires Xor64(h.h1, M.MixK1(k1)) == x && M.Stir(Rotl27(x), h.h2, 0x52dce729) == h1
    requires Xor64(h.h2, M.MixK2(k2)) == y && M.Stir(Rotl31(y), h1, 0x38495ab5) == h2
    ensures M.Round(h, k1, k2) == M.State(h1, h2)
  {
  }

  lemma StirIs(x: u64, y: u64, c: nat, s: u64, r: u64)
    requires Plus(x, y) == s && Plus(Times(s, 5), c) == r
    ensures M.Stir(x, y, c) == r
  {
  }

  lemma FirstStir(x: u64)
    requires x == 0x338f_7c70_aff0_1d95
    ensures M.Stir(Rotl27(x), 0, 0x52dce729) == 0x9b7d_849f_a2eb_5298
  {
    assert Rotl27(x) == 0x857f_80ec_a99c_7be3;
    StirIs(Rotl27(x), 0, 0x52dce729, 0x857f_80ec_a99c_7be3, 0x9b7d_849f_a2eb_5298);
  }

  lemma SecondStir(x: u64)
    requires x == 0x85ff_f946_6021_b38a
    ensures M.Stir(Rotl31(x), 0x9b7d_849f_a2eb_5298, 0x38495ab5) == 0xf9c7_d7f8_b5e1_e6dc
  {
    assert Rotl31(x) == 0x3010_d9c5_42ff_fca3;
    StirIs(Rotl31(x), 0x9b7d_849f_a2eb_5298, 0x38495ab5, 0xcb8e_5e64_e5eb_4f3b, 0xf9c7_d7f8_b5e1_e6dc);
  }

  lemma FirstShifts(k: u64, l: u64, m: u64)
    requires k == 0xa2e9_5f73_7bdf_b282 && l == 0x382d_e0fc_1299_ac3f && m == 0xaec_f07c_694b_d513
    ensures XorShift33(k) == 0xa2e9_5f73_2aab_1d3b
    ensures XorShift33(l) == 0x382d_e0fc_0e8f_5c41
    ensures XorShift33(m) == 0xaec_f07c_6c3d_ad2d
  {
    ShiftIs(k, 0xa2, 0xe9, 0x5f, 0x73, 0x7b, 0xdf, 0xb2, 0x82,
            0x00, 0x00, 0x00, 0x00, 0x51, 0x74, 0xaf, 0xb9);
    ShiftIs(l, 0x38, 0x2d, 0xe0, 0xfc, 0x12, 0x99, 0xac, 0x3f,
            0x00, 0x00, 0x00, 0x00, 0x1c, 0x16, 0xf0, 0x7e);
    ShiftIs(m, 0x0a, 0xec, 0xf0, 0x7c, 0x69, 0x4b, 0xd5, 0x13,
            0x00, 0x00, 0x00, 0x00, 0x05, 0x76, 0x78, 0x3e);
  }

  lemma FirstProducts()
    ensures Times(0xa2e9_5f73_2aab_1d3b, 0xff51afd7ed558ccd) == 0x382d_e0fc_1299_ac3f
    ensures Times(0x382d_e0fc_0e8f_5c41, 0xc4ceb9fe1a85ec53) == 0xaec_f07c_694b_d513
  {
  }

  lemma FirstMix(k: u64)
    requires k == 0xa2e9_5f73_7bdf_b282
    ensures M.Fmix(k) == 0xaec_f07c_6c3d_ad2d
  {
    var l: u64, m: u64 := 0x382d_e0fc_1299_ac3f, 0xaec_f07c_694b_d513;
    FirstShifts(k, l, m);
    FirstProducts();
    FmixIs(k, 0xa2e9_5f73_2aab_1d3b, l, 0x382d_e0fc_0e8f_5c41, m);
  }

  lemma SecondShifts(k: u64, l: u64, m: u64)
    requires k == 0x684_6384_52ba_664e && l == 0xebf8_68df_213a_ab1c && m == 0xadb1_690c_1c22_b649
    ensures XorShift33(k) == 0x684_6384_51f8_578c
    ensures XorShift33(l) == 0xebf8_68df_54c6_9f73
    ensures XorShift33(m) == 0xadb1_690c_4afa_02cf
  {
    ShiftIs(k, 0x06, 0x84, 0x63, 0x84, 0x52, 0xba, 0x66, 0x4e,
            0x00, 0x00, 0x00, 0x00, 0x03, 0x42, 0x31, 0xc2);
    ShiftIs(l, 0xeb, 0xf8, 0x68, 0xdf, 0x21, 0x3a, 0xab, 0x1c,
            0x00, 0x00, 0x00, 0x00, 0x75, 0xfc, 0x34, 0x6f);
    ShiftIs(m, 0xad, 0xb1, 0x69, 0x0c, 0x1c, 0x22, 0xb6, 0x49,
            0x00, 0x00, 0x00, 0x00, 0x56, 0xd8, 0xb4, 0x86);
  }

  lemma SecondProducts()
    ensures Times(0x684_6384_51f8_578c, 0xff51afd7ed558ccd) == 0xebf8_68df_213a_ab1c
    ensures Times(0xebf8_68df_54c6_9f73, 0xc4ceb9fe1a85ec53) == 0xadb1_690c_1c22_b649
  {
  }

  lemma SecondMix(k: u64)
    requires k == 0x684_6384_52ba_664e
    ensures M.Fmix(k) == 0xadb1_690c_4afa_02cf
  {
    var l: u64, m: u64 := 0xebf8_68df_213a_ab1c, 0xadb1_690c_1c22_b649;
    SecondShifts(k, l, m);
    SecondProducts();
    FmixIs(k, 0x684_6384_51f8_578c, l, 0xebf8_68df_54c6_9f73, m);
  }

  lemma Finishes(h: M.State)
    requires h == M.State(0x3f4e_5b62_a504_feaf, 0x639b_0410_d6da_b3d5)
    ensures M.Finish(h, 25) == M.State(0xb89e_5988_b737_affc, 0x664f_c295_0231_b2cb)
  {
    XorIs(h.h1, 25, 0x3f, 0x4e, 0x5b, 0x62, 0xa5, 0x04, 0xfe, 0xaf,
          0x00, 0x00, 0x00, 0x00, 0x00, 0x00, 0x00, 0x19);
    XorIs(h.h2, 25, 0x63, 0x9b, 0x04, 0x10, 0xd6, 0xda, 0xb3, 0xd5,
          0x00, 0x00, 0x00, 0x00, 0x00, 0x00, 0x00, 0x19);
    FirstMix(Plus(0x3f4e_5b62_a504_feb6, 0x639b_0410_d6da_b3cc));
    SecondMix(Plus(0x639b_0410_d6da_b3cc, 0xa2e9_5f73_7bdf_b282));
  }

  lemma FirstRound(k1: u64, k2: u64)
    requires k1 == 0x3220_6e61_4a20_3931 && k2 == 0x3320_7461_2038_3330
    ensures M.Round(M.State(0, 0), k1, k2) == M.State(0x9b7d_849f_a2eb_5298, 0xf9c7_d7f8_b5e1_e6dc)
  {
    BlockK1(k1);
    BlockK2(k2);
    ZeroXor(M.MixK1(k1));
    ZeroXor(M.MixK2(k2));
    FirstStir(0x338f_7c70_aff0_1d95);
    SecondStir(0x85ff_f946_6021_b38a);
    RoundIs(M.State(0, 0), k1, k2, 0x338f_7c70_aff0_1d95, 0x85ff_f946_6021_b38a,
            0x9b7d_849f_a2eb_5298, 0xf9c7_d7f8_b5e1_e6dc);
  }

  lemma ZeroXor(x: u64)
    ensures Xor64(0, x) == x
  {
    XorZero(x);
    XorCommutes(0, x);
  }

  lemma MixesTail(h: M.State, k1: u64, k2: u64)
    requires h == M.State(0x9b7d_849f_a2eb_5298, 0xf9c7_d7f8_b5e1_e6dc)
    requires k1 == 0xa433_dffd_07ef_ac37 && k2 == 0x9a5c_d3e8_633b_5509
    ensures Xor64(h.h1, k1) == 0x3f4e_5b62_a504_feaf
    ensures Xor64(h.h2, k2) == 0x639b_0410_d6da_b3d5
  {
    XorIs(h.h1, k1, 0x9b, 0x7d, 0x84, 0x9f, 0xa2, 0xeb, 0x52, 0x98,
          0xa4, 0x33, 0xdf, 0xfd, 0x07, 0xef, 0xac, 0x37);
    XorIs(h.h2, k2, 0xf9, 0xc7, 0xd7, 0xf8, 0xb5, 0xe1, 0xe6, 0xdc,
          0x9a, 0x5c, 0xd3, 0xe8, 0x63, 0x3b, 0x55, 0x09);
  }

  // ----- The key "19 Jan 2038 at 3:14:07 AM"

  const DATE: M.Key := 
    [49, 57, 32, 74, 97, 110, 32, 50, 48, 51, 56, 32, 97, 116, 32, 51, 58, 49, 52, 58, 48, 55, 32, 65, 77]

  function Join(x: nat, y: nat): nat {
    x + 256 * y
  }

  lemma LoadFrom(b: seq<byte>, i: nat)
    requires i < |b|
    ensures M.LittleEndian(b[i..]) == Join(b[i], M.LittleEndian(b[i + 1..]))
  {
    assert b[i..][1..] == b[i + 1..];
  }

  lemma Load(b: seq<byte>)
    requires |b| == 8
    ensures M.LittleEndian(b) ==
            Join(b[0], Join(b[1], Join(b[2], Join(b[3], Join(b[4], Join(b[5], Join(b[6], Join(b[7], 0))))))))
  {
    assert b[0..] == b && b[8..] == [];
    LoadFrom(b, 0);
    LoadFrom(b, 1);
    LoadFrom(b, 2);
    LoadFrom(b, 3);
    LoadFrom(b, 4);
    LoadFrom(b, 5);
    LoadFrom(b, 6);
    LoadFrom(b, 7);
  }

  lemma AddLowByte(b: byte, q: nat)
    ensures Xor(Put(0, b), Put(q, 0)) == Put(q, b)
  {
    XorZero(b);
    PutXor(0, q, b, 0, b);
    XorZero(q);
    XorCommutes(0, q);
  }

  lemma JoinsByte(x: u64, q: nat, y: u64)
    requires x < 256 && y == Times(q, 256) == 256 * q
    ensures Xor64(x, y) == Join(x, q)
  {
    AddLowByte(x, q);
    assert Put(0, x) == x && Put(q, 0) == y;
  }

  /** Tail bytes that do not change when they are extended are loaded like those of a block. */
  lemma {:induction false} PlainTail(signed: bool, t: seq<byte>)
    requires |t| <= 8 && forall i | 0 <= i < |t| :: t[i] < 0x80
    ensures M.Packed(signed, t) == M.LittleEndian(t)
  {
    if t != [] {
      PlainTail(signed, t[1..]);
      Fits(t);
      var q := M.LittleEndian(t[1..]);
      JoinsByte(t[0], q, Times(q, 256));
    }
  }

  lemma Fits(t: seq<byte>)
    requires 0 < |t| <= 8
    ensures 256 * M.LittleEndian(t[1..]) < TWO_64
  {
    M.LoadFits(t[1..], Pow2(8 * (|t| - 1)));
    PowMono(8 * (|t| - 1), 56);
    M.Pow56();
  }

  lemma DateFirst()
    ensures M.Block(DATE, 0) == 0x3220_6e61_4a20_3931
  {
    var b := DATE[0..8];
    assert b == [49, 57, 32, 74, 97, 110, 32, 50];
    Load(b);
  }

  lemma DateSecond()
    ensures M.Block(DATE, 1) == 0x3320_7461_2038_3330
  {
    var b := DATE[8..16];
    assert b == [48, 51, 56, 32, 97, 116, 32, 51];
    Load(b);
  }

  lemma DateBlock()
    ensures M.BlocksOf(DATE) == [(0x3220_6e61_4a20_3931, 0x3320_7461_2038_3330)]
  {
    DateFirst();
    DateSecond();
  }

  lemma DateTail(signed: bool)
    ensures M.Packed(signed, M.Tail(DATE)[..8]) == 0x4120_3730_3a34_313a
    ensures M.Packed(signed, M.Tail(DATE)[8..]) == 0x4d
  {
    var t := M.Tail(DATE);
    assert t == DATE[16..25];
    Load(t[..8]);
    PlainTail(signed, t[..8]);
    PlainTail(signed, t[8..]);
  }

  /** The hash of one block and a tail that goes into both words, under either reading of its bytes:
      a value in common use to check implementations of MurmurHash3_x64_128. */
  lemma MurmurVector(signed: bool)
    ensures M.Hash(signed, DATE, 0) == M.State(0xb89e_5988_b737_affc, 0x664f_c295_0231_b2cb)
  {
    DateBlock();
    DateTail(signed);
    var k1: u64, k2: u64 := 0x3220_6e61_4a20_3931, 0x3320_7461_2038_3330;
    FirstRound(k1, k2);
    assert M.Body(0, M.BlocksOf(DATE)) == M.Round(M.State(0, 0), k1, k2);
    var h := M.Body(0, M.BlocksOf(DATE));
    var t1: u64, t2: u64 := 0x4120_3730_3a34_313a, 0x4d;
    TailK1(t1);
    TailK2(t2);
    MixesTail(h, M.MixK1(t1), M.MixK2(t2));
    var g := M.TailMix(signed, h, M.Tail(DATE));
    assert g == M.State(0x3f4e_5b62_a504_feaf, 0x639b_0410_d6da_b3d5);
    Finishes(g);
  }

  // ----- FNV-1a

  lemma NextOctet(s: seq<byte>, b: byte)
    ensures S.Reference(s + [b]) == Times(Xor64(S.Reference(s), b), S.FNV_PRIME)
  {
    assert (s + [b])[..|s|] == s;
  }

  lemma FnvProduct()
    ensures Times(0xcbf2_9ce4_8422_2344, S.FNV_PRIME) == 0xaf63_dc4c_8601_ec8c
  {
  }

  lemma FnvXor(h: u64)
    requires h == 0xcbf2_9ce4_8422_2325
    ensures Xor64(h, 97) == 0xcbf2_9ce4_8422_2344
  {
    XorIs(h, 97, 0xcb, 0xf2, 0x9c, 0xe4, 0x84, 0x22, 0x23, 0x25,
          0x00, 0x00, 0x00, 0x00, 0x00, 0x00, 0x00, 0x61);
  }

  /** The hashes draft-eastlake-fnv lists for the empty string and for the letter a. */
  lemma FnvVectors()
    ensures S.Reference([]) == 0xcbf2_9ce4_8422_2325
    ensures S.Reference([97]) == 0xaf63_dc4c_8601_ec8c
  {
    var h := S.Reference([]);
    FnvXor(h);
    FnvProduct();
    NextOctet([], 97);
    assert [] + [97] == [97 as byte];
  }
}
