/**
 64-bit words as the natural numbers below 2^64, with the operations the hash functions are made of
 and the facts that make those invertible.
 */
module Words {

  import opened Prelude
  import opened Vint

  // ----- Exclusive or

  function Xor(a: nat, b: nat): nat
    decreases a + b
  {
    if a == 0 && b == 0 then 0
    else (if a % 2 == b % 2 then 0 else 1) + 2 * Xor(a / 2, b / 2)
  }

  lemma XorDigits(a: nat, b: nat)
    ensures Xor(a, b) % 2 == (if a % 2 == b % 2 then 0 else 1) && Xor(a, b) / 2 == Xor(a / 2, b / 2)
  {
  }

  lemma {:induction false} XorBack(a: nat, b: nat)
    ensures Xor(Xor(a, b), b) == a
    decreases a + b
  {
    if a != 0 || b != 0 {
      XorDigits(a, b);
      XorDigits(Xor(a, b), b);
      XorBack(a / 2, b / 2);
    }
  }

  lemma {:induction false} XorCommutes(a: nat, b: nat)
    ensures Xor(a, b) == Xor(b, a)
    decreases a + b
  {
    if a != 0 || b != 0 {
      XorCommutes(a / 2, b / 2);
    }
  }

  lemma {:induction false} XorZero(a: nat)
    ensures Xor(a, 0) == a
  {
    if a != 0 {
      XorZero(a / 2);
    }
  }

  lemma XorCancels(a: nat, b: nat, c: nat)
    requires Xor(a, c) == Xor(b, c) || Xor(c, a) == Xor(c, b)
    ensures a == b
  {
    XorCommutes(a, c);
    XorCommutes(b, c);
    XorBack(a, c);
    XorBack(b, c);
  }

  lemma XorStep(x: nat, low: nat, y: nat, low': nat, z: nat, h: nat)
    requires var e := Xor(low / 2, low' / 2); Xor(x + low / 2, y + low' / 2) == z + e && e < h
    ensures Xor(2 * x + low, 2 * y + low') == 2 * z + Xor(low, low') && Xor(low, low') < 2 * h
  {
    XorDigits(2 * x + low, 2 * y + low');
    XorDigits(low, low');
  }

  lemma Doubled(q: nat, h: nat)
    ensures q * (2 * h) == 2 * (q * h) && q * h >= 0
  {
    ProductSign(q, h);
  }

  /** The low and the high bits of an exclusive or come from the low and the high bits. */
  lemma {:induction false} XorSplit(a: nat, low: nat, b: nat, low': nat, k: nat, m: nat)
    requires m == Pow2(k) && low < m && low' < m
    ensures Xor(a * m + low, b * m + low') == Xor(a, b) * m + Xor(low, low') && Xor(low, low') < m
    decreases k
  {
    if k > 0 {
      var h := Pow2(k - 1);
      XorSplit(a, low / 2, b, low' / 2, k - 1, h);
      Doubled(a, h);
      Doubled(b, h);
      Doubled(Xor(a, b), h);
      XorStep(a * h, low, b * h, low', Xor(a, b) * h, h);
    }
  }

  lemma XorBelow(a: nat, b: nat, k: nat, m: nat)
    requires m == Pow2(k) && a < m && b < m
    ensures Xor(a, b) < m
  {
    XorSplit(0, a, 0, b, k, m);
  }

  function Xor64(a: u64, b: u64): u64 {
    Pow64();
    XorBelow(a, b, 64, TWO_64);
    Xor(a, b)
  }

  // ----- Multiplication and addition

  function Times(x: int, c: int): u64 {
    x * c % TWO_64
  }

  function Plus(x: int, y: int): u64 {
    (x + y) % TWO_64
  }

  lemma SmallMultiple(x: int, m: nat, j: int)
    requires x == m * j && x < m && -x < m
    ensures x == 0
  {
    assert j * m == x && -j * m == -x;
    if j >= 1 {
      MulAtLeast(j, m);
    } else if j <= -1 {
      MulAtLeast(-j, m);
    }
  }

  lemma Remainders(x: int, y: int, m: nat)
    requires m > 0 && x % m == y % m
    ensures x - y == m * (x / m - y / m)
  {
    assert x == m * (x / m) + x % m && y == m * (y / m) + y % m;
  }

  lemma Regroup3(d: int, c: int, e: int, m: int, q: int, k: int)
    requires d * c == m * q && c * e == 1 + k * m
    ensures d == m * (q * e - d * k)
  {
    calc {
      d * (1 + k * m);
      d * (c * e);
      d * c * e;
      m * q * e;
    }
    assert d * (1 + k * m) == d + m * (d * k);
    assert m * q * e == m * (q * e);
    assert m * (q * e - d * k) == m * (q * e) - m * (d * k);
  }

  /** Multiplying by a number with an inverse modulo 2^64, and adding, loses nothing. */
  lemma AffineInjective(x: u64, y: u64, c: nat, e: nat, k: int, add: int)
    requires c * e == 1 + k * TWO_64 && (x * c + add) % TWO_64 == (y * c + add) % TWO_64
    ensures x == y
  {
    Remainders(x * c + add, y * c + add, TWO_64);
    var q := (x * c + add) / TWO_64 - (y * c + add) / TWO_64;
    assert (x - y) * c == TWO_64 * q;
    Regroup3(x - y, c, e, TWO_64, q, k);
    SmallMultiple(x - y, TWO_64, q * e - (x - y) * k);
  }

  lemma PlusInjective(x: u64, y: u64, z: int)
    requires Plus(x, z) == Plus(y, z) || Plus(z, x) == Plus(z, y)
    ensures x == y
  {
    AffineInjective(x, y, 1, 1, 0, z);
  }

  // ----- Rotation and shift, for the distances in use

  function Rotl27(x: u64): u64 { Times(x, 0x800_0000) + x / 0x20_0000_0000 }

  function Rotl31(x: u64): u64 { Times(x, 0x8000_0000) + x / 0x2_0000_0000 }

  function Rotl33(x: u64): u64 { Times(x, 0x2_0000_0000) + x / 0x8000_0000 }

  lemma RotatedParts(x: u64, a: nat, b: nat)
    requires a > 0 && b > 0 && a * b == TWO_64
    ensures x * a % TWO_64 == x % b * a && x / b < a
  {
    var hi, lo := x / b, x % b;
    assert x == hi * b + lo;
    DivBelow(x, b, a);
    assert (hi * b + lo) * a == hi * (a * b) + lo * a;
    MulAtLeast(b - lo, a);
    assert (b - lo) * a == a * b - lo * a;
    ProductSign(lo, a);
    RemainderIs(x * a, TWO_64, hi, lo * a);
  }

  lemma TwoDigits(q: nat, r: nat, q': nat, r': nat, m: nat)
    requires r < m && r' < m && q * m + r == q' * m + r'
    ensures q == q' && r == r'
  {
    RemainderIs(q * m + r, m, q, r);
    RemainderIs(q * m + r, m, q', r');
  }

  lemma RotationInjective(x: u64, y: u64, a: nat, b: nat)
    requires a > 0 && b > 0 && a * b == TWO_64
    requires x * a % TWO_64 + x / b == y * a % TWO_64 + y / b
    ensures x == y
  {
    RotatedParts(x, a, b);
    RotatedParts(y, a, b);
    TwoDigits(x % b, x / b, y % b, y / b, a);
    assert x == x / b * b + x % b && y == y / b * b + y % b;
  }

  lemma Rotl27Injective(x: u64, y: u64)
    requires Rotl27(x) == Rotl27(y)
    ensures x == y
  {
    RotationInjective(x, y, 0x800_0000, 0x20_0000_0000);
  }

  lemma Rotl31Injective(x: u64, y: u64)
    requires Rotl31(x) == Rotl31(y)
    ensures x == y
  {
    RotationInjective(x, y, 0x8000_0000, 0x2_0000_0000);
  }

  lemma Rotl33Injective(x: u64, y: u64)
    requires Rotl33(x) == Rotl33(y)
    ensures x == y
  {
    RotationInjective(x, y, 0x2_0000_0000, 0x8000_0000);
  }

  function XorShift33(x: u64): u64 {
    Xor64(x, x / 0x2_0000_0000)
  }

  lemma Pow33()
    ensures Pow2(33) == 0x2_0000_0000
  {
    SmallPowers();
    PowAdd(8, 8);
    PowAdd(16, 16);
    PowAdd(32, 1);
  }

  lemma XorShiftBack(x: u64)
    ensures XorShift33(XorShift33(x)) == x
  {
    var s := x / 0x2_0000_0000;
    Pow33();
    XorSplit(s, x % 0x2_0000_0000, 0, s, 33, 0x2_0000_0000);
    XorZero(s);
    XorBack(x, s);
  }

  lemma XorShiftInjective(x: u64, y: u64)
    requires XorShift33(x) == XorShift33(y)
    ensures x == y
  {
    XorShiftBack(x);
    XorShiftBack(y);
  }
}
