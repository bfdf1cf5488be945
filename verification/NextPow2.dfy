/** Rounding up to a power of two, at run time (src/utils.hpp) and at compile time (src/macros.hpp). */
module NextPow2 {

  import opened Prelude
  import opened Vint

  /** 2^k is the least power of two that is at least 2 and at least `num`. */
  predicate IsExponent(num: nat, k: nat) {
    1 <= k <= 63 && Pow2(k) >= num && (k > 1 ==> Pow2(k - 1) < num)
  }

  ghost predicate IsNextPow2(num: nat, r: nat) {
    exists k: nat :: IsExponent(num, k) && r == Pow2(k)
  }

  lemma ExponentUnique(num: nat, j: nat, k: nat)
    requires IsExponent(num, j) && IsExponent(num, k)
    ensures j <= k
  {
    if k < j {
      PowMono(k, j - 1);
    }
  }

  /** There is only one. */
  lemma NextPow2Unique(num: nat, r: nat, s: nat)
    requires IsNextPow2(num, r) && IsNextPow2(num, s)
    ensures r == s
  {
    var j: nat :| IsExponent(num, j) && r == Pow2(j);
    var k: nat :| IsExponent(num, k) && s == Pow2(k);
    ExponentUnique(num, j, k);
    ExponentUnique(num, k, j);
  }

  lemma Pow63()
    ensures Pow2(63) == TWO_63
  {
    Pow64();
    assert Pow2(64) == 2 * Pow2(63);
  }

  /** The first turn of the loop lowers `next` from 2 to 1. */
  method NextPowerOf2(num: nat) returns (next: nat)
    requires num <= TWO_63
    ensures IsNextPow2(num, next)
  {
    next := 2;
    var i := 0;
    Pow63();
    while next < num
      invariant i <= 64
      invariant i == 0 ==> next == 2
      invariant i > 0 ==> next == Pow2(i - 1) && num > 2
      invariant i > 1 ==> Pow2(i - 2) < num
      decreases 64 - i
    {
      next := Pow2(i);
      i := i + 1;
    }
    if i == 0 {
      assert IsExponent(num, 1) && next == Pow2(1);
    } else {
      assert Pow2(0) == 1;
      assert IsExponent(num, i - 1);
    }
  }

  /** StaticNextPow2Helper. */
  function Helper(c: nat, num: nat): nat
    requires c >= 1
  {
    if c == 1 then 2 else
    var previous := Helper(c - 1, num);
    if previous < num then Pow2(c) else previous
  }

  lemma {:induction false} HelperIs(c: nat, num: nat)
    requires 1 <= c <= 63
    ensures IsNextPow2(num, Helper(c, num)) || (Helper(c, num) == Pow2(c) < num)
  {
    if c == 1 {
      assert Helper(c, num) == Pow2(1);
      assert num <= 2 ==> IsExponent(num, 1);
    } else {
      HelperIs(c - 1, num);
      if Helper(c - 1, num) < num {
        assert Helper(c, num) == Pow2(c);
        assert Pow2(c) >= num ==> IsExponent(num, c);
      }
    }
  }

  /** The compile-time recursion finds the same power. */
  lemma StaticIsNextPow2(num: nat)
    requires num <= TWO_63
    ensures IsNextPow2(num, Helper(63, num))
    ensures forall next :: IsNextPow2(num, next) ==> next == Helper(63, num)
  {
    Pow63();
    HelperIs(63, num);
    forall next | IsNextPow2(num, next) ensures next == Helper(63, num) {
      NextPow2Unique(num, next, Helper(63, num));
    }
  }
}
