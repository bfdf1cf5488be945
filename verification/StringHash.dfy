/**
 Strings by reference (src/string_ref.hpp) and their FNV-1a hash (src/hash.hpp), on machines with
 signed characters and in the C locale.
 */
module StringHash {

  import opened Prelude
  import opened Words

  const FNV_INIT: u64 := 0xcbf29ce484222325
  const FNV_PRIME := 0x100000001b3

  /** A byte as the signed char it is. */
  function Char(b: byte): int {
    if b < 0x80 then b else b - 256
  }

  function ToUpper(c: int): int {
    if 'a' as int <= c <= 'z' as int then c - 32 else c
  }

  function ToLower(c: int): int {
    if 'A' as int <= c <= 'Z' as int then c + 32 else c
  }

  // ----- FNV-1a

  /** An int converted to 64 bits. */
  function Wrap(v: int): u64 {
    v % TWO_64
  }

  function Step(h: u64, v: int): u64 {
    Times(Xor64(h, Wrap(v)), FNV_PRIME)
  }

  function Fnv1a(op: int -> int, s: seq<byte>): u64 {
    if s == [] then FNV_INIT else
    var n := |s| - 1;
    Step(Fnv1a(op, s[..n]), op(Char(s[n])))
  }

  method Fnv1aLoop(op: int -> int, s: seq<byte>) returns (h: u64)
    ensures h == Fnv1a(op, s)
  {
    h := FNV_INIT;
    for i := 0 to |s|
      invariant h == Fnv1a(op, s[..i])
    {
      assert s[..i + 1][..i] == s[..i];
      h := Xor64(h, Wrap(op(Char(s[i]))));
      h := Times(h, FNV_PRIME);
    }
    assert s[..|s|] == s;
  }

  lemma PrimeInjective(x: u64, y: u64)
    requires Times(x, FNV_PRIME) == Times(y, FNV_PRIME)
    ensures x == y
  {
    AffineInjective(x, y, FNV_PRIME, 0xce965057aff6957b, 0xce9650590f, 0);
  }

  predicate IsInt(v: int) {
    -0x8000_0000 <= v < 0x8000_0000
  }

  lemma WrapInjective(v: int, w: int)
    requires IsInt(v) && IsInt(w) && Wrap(v) == Wrap(w)
    ensures v == w
  {
  }

  /** A step loses neither the state nor the character. */
  lemma StepInjective(h: u64, v: int, h': u64, v': int)
    requires Step(h, v) == Step(h', v')
    ensures v == v' ==> h == h'
    ensures h == h' && IsInt(v) && IsInt(v') ==> v == v'
  {
    PrimeInjective(Xor64(h, Wrap(v)), Xor64(h', Wrap(v')));
    if v == v' {
      XorCancels(h, h', Wrap(v));
    }
    if h == h' && IsInt(v) && IsInt(v') {
      XorCancels(Wrap(v), Wrap(v'), h);
      WrapInjective(v, v');
    }
  }

  predicate Mapped(op: int -> int, s: seq<byte>, t: seq<byte>) {
    |s| == |t| && forall i | 0 <= i < |s| :: op(Char(s[i])) == op(Char(t[i]))
  }

  lemma {:induction false} SameMappedSameHash(op: int -> int, s: seq<byte>, t: seq<byte>)
    requires Mapped(op, s, t)
    ensures Fnv1a(op, s) == Fnv1a(op, t)
  {
    if s != [] {
      SameMappedSameHash(op, s[..|s| - 1], t[..|t| - 1]);
    }
  }

  /** Strings whose mapped characters differ at one position never collide. */
  lemma {:induction false} OneDifferenceNeverCollides(op: int -> int, s: seq<byte>, t: seq<byte>, p: nat)
    requires p < |s| == |t| && op(Char(s[p])) != op(Char(t[p])) && IsInt(op(Char(s[p]))) && IsInt(op(Char(t[p])))
    requires forall i | 0 <= i < |s| && i != p :: op(Char(s[i])) == op(Char(t[i]))
    ensures Fnv1a(op, s) != Fnv1a(op, t)
  {
    var n := |s| - 1;
    var g, h, v, w := Fnv1a(op, s[..n]), Fnv1a(op, t[..n]), op(Char(s[n])), op(Char(t[n]));
    if p == n {
      SameMappedSameHash(op, s[..n], t[..n]);
    } else {
      OneDifferenceNeverCollides(op, s[..n], t[..n], p);
    }
    if Step(g, v) == Step(h, w) {
      StepInjective(g, v, h, w);
    }
  }

  /** Section 2 of draft-eastlake-fnv: the hash of the octets. */
  function Reference(s: seq<byte>): u64 {
    if s == [] then FNV_INIT else
    var n := |s| - 1;
    Times(Xor64(Reference(s[..n]), s[n]), FNV_PRIME)
  }

  function Nop(c: int): int { c }

  lemma PlainStep(h: u64, b: byte)
    requires b < 0x80
    ensures Step(h, Nop(Char(b))) == Times(Xor64(h, b), FNV_PRIME)
  {
  }

  lemma {:induction false} MatchesReference(s: seq<byte>)
    requires forall i | 0 <= i < |s| :: s[i] < 0x80
    ensures Fnv1a(Nop, s) == Reference(s)
  {
    if s != [] {
      var n := |s| - 1;
      MatchesReference(s[..n]);
      PlainStep(Reference(s[..n]), s[n]);
    }
  }

  lemma OctetStep(h: u64, b: byte)
    ensures Step(h, b) == Times(Xor64(h, b), FNV_PRIME)
  {
    assert Wrap(b) == b;
  }

  lemma LastSteps(s: seq<byte>, n: nat)
    requires n == |s| - 1
    ensures Fnv1a(Nop, s) == Step(Fnv1a(Nop, s[..n]), Char(s[n])) && Reference(s) == Step(Reference(s[..n]), s[n])
  {
    OctetStep(Reference(s[..n]), s[n]);
  }

  /** The code's step and the reference's differ if one of state and character does. */
  lemma StepDiffers(g: u64, h: u64, b: byte)
    requires g == h <==> b >= 0x80
    ensures Step(g, Char(b)) != Step(h, b)
  {
    if Step(g, Char(b)) == Step(h, b) {
      StepInjective(g, Char(b), h, b);
    }
  }

  /** A single byte outside ASCII always gives another hash: the code extends its sign. */
  lemma {:induction false} OneNonAsciiByteDiffers(s: seq<byte>, p: nat)
    requires p < |s| && s[p] >= 0x80 && forall i | 0 <= i < |s| && i != p :: s[i] < 0x80
    ensures Fnv1a(Nop, s) != Reference(s)
  {
    var n := |s| - 1;
    if p == n {
      MatchesReference(s[..n]);
    } else {
      OneNonAsciiByteDiffers(s[..n], p);
    }
    LastSteps(s, n);
    StepDiffers(Fnv1a(Nop, s[..n]), Reference(s[..n]), s[n]);
  }

  // ----- Comparison

  function Sign(b: bool): int {
    if b then -1 else 1
  }

  /** The first position where the strings differ, or their length. */
  function FirstDifference(eq: (int, int) -> bool, s: seq<byte>, t: seq<byte>): (n: nat)
    requires |s| == |t|
    ensures n <= |s| && (forall i | 0 <= i < n :: eq(Char(s[i]), Char(t[i])))
    ensures n < |s| ==> !eq(Char(s[n]), Char(t[n]))
  {
    if s == [] || !eq(Char(s[0]), Char(t[0])) then 0 else 1 + FirstDifference(eq, s[1..], t[1..])
  }

  /** StringRef::compare: shorter strings come first, then the first difference decides. */
  function Compare(eq: (int, int) -> bool, s: seq<byte>, t: seq<byte>): int {
    if |s| != |t| then Sign(|s| < |t|) else
    var n := FirstDifference(eq, s, t);
    if n == |s| then 0 else Sign(Char(s[n]) < Char(t[n]))
  }

  method CompareLoop(eq: (int, int) -> bool, s: seq<byte>, t: seq<byte>) returns (r: int)
    ensures r == Compare(eq, s, t)
  {
    if |s| < |t| {
      return -1;
    } else if |s| > |t| {
      return 1;
    }
    for i := 0 to |s|
      invariant forall j | 0 <= j < i :: eq(Char(s[j]), Char(t[j]))
    {
      if !eq(Char(s[i]), Char(t[i])) {
        OnlyFirst(eq, s, t, i);
        return if Char(s[i]) < Char(t[i]) then -1 else 1;
      }
    }
    return 0;
  }

  lemma OnlyFirst(eq: (int, int) -> bool, s: seq<byte>, t: seq<byte>, n: nat)
    requires n < |s| == |t| && !eq(Char(s[n]), Char(t[n])) && forall j | 0 <= j < n :: eq(Char(s[j]), Char(t[j]))
    ensures FirstDifference(eq, s, t) == n
  {
    var m := FirstDifference(eq, s, t);
    assert m <= n;
  }

  function Equal(a: int, b: int): bool { a == b }

  function EqualInsensitive(a: int, b: int): bool { ToUpper(a) == ToUpper(b) }

  predicate Less(s: seq<byte>, t: seq<byte>) {
    Compare(Equal, s, t) < 0
  }

  lemma CharInjective(a: byte, b: byte)
    requires Char(a) == Char(b)
    ensures a == b
  {
  }

  lemma EqualsIsEquality(s: seq<byte>, t: seq<byte>)
    ensures Compare(Equal, s, t) == 0 <==> s == t
  {
    if Compare(Equal, s, t) == 0 {
      forall i | 0 <= i < |s| ensures s[i] == t[i] {
        CharInjective(s[i], t[i]);
      }
    }
  }

  /** operator< is a strict total order. */
  lemma LessIsStrictTotalOrder(s: seq<byte>, t: seq<byte>, u: seq<byte>)
    ensures !Less(s, s)
    ensures s != t ==> (Less(s, t) <==> !Less(t, s))
    ensures Less(s, t) && Less(t, u) ==> Less(s, u)
  {
    EqualsIsEquality(s, s);
    EqualsIsEquality(s, t);
    if |s| == |t| {
      var n := FirstDifference(Equal, s, t);
      if n < |s| {
        OnlyFirst(Equal, t, s, n);
      }
      if |t| == |u| && Less(s, t) && Less(t, u) {
        var m := FirstDifference(Equal, t, u);
        OnlyFirst(Equal, s, u, if n < m then n else m);
      }
    }
  }

  /** Dictionary order of the signed characters. */
  predicate Before(s: seq<byte>, t: seq<byte>) {
    if s == [] || t == [] then t != []
    else Char(s[0]) < Char(t[0]) || (s[0] == t[0] && Before(s[1..], t[1..]))
  }

  lemma {:induction false} DictionaryOrder(s: seq<byte>, t: seq<byte>)
    requires |s| == |t|
    ensures Less(s, t) <==> Before(s, t)
  {
    if s != [] {
      if Char(s[0]) == Char(t[0]) {
        CharInjective(s[0], t[0]);
        DictionaryOrder(s[1..], t[1..]);
      }
    }
  }

  /** operator< puts shorter strings first, and strings of one length in dictionary order. */
  lemma LessIs(s: seq<byte>, t: seq<byte>)
    ensures Less(s, t) <==> |s| < |t| || (|s| == |t| && Before(s, t))
  {
    if |s| == |t| {
      DictionaryOrder(s, t);
    }
  }

  function IEquals(s: seq<byte>, t: seq<byte>): bool {
    Compare(EqualInsensitive, s, t) == 0
  }

  /** One functor folds up and the other down, but in the C locale they agree on what is equal. */
  lemma FoldsAgree(a: byte, b: byte)
    ensures ToUpper(Char(a)) == ToUpper(Char(b)) <==> ToLower(Char(a)) == ToLower(Char(b))
  {
  }

  lemma EqualKeysHashAlike(s: seq<byte>, t: seq<byte>)
    ensures IEquals(s, t) <==> Mapped(ToLower, s, t)
    ensures IEquals(s, t) ==> Fnv1a(ToLower, s) == Fnv1a(ToLower, t)
  {
    if |s| == |t| {
      forall i | 0 <= i < |s|
        ensures EqualInsensitive(Char(s[i]), Char(t[i])) <==> ToLower(Char(s[i])) == ToLower(Char(t[i]))
      {
        FoldsAgree(s[i], t[i]);
      }
    }
    if IEquals(s, t) {
      SameMappedSameHash(ToLower, s, t);
    }
  }

  /** starts_with and ends_with test for a prefix and a suffix. */
  function StartsWith(input: seq<byte>, target: seq<byte>): (r: bool)
    ensures r <==> target <= input
  {
    if |input| < |target| then false else
    EqualsIsEquality(input[..|target|], target);
    Compare(Equal, input[..|target|], target) == 0
  }

  function EndsWith(input: seq<byte>, target: seq<byte>): (r: bool)
    ensures r <==> exists n | 0 <= n <= |input| :: input[n..] == target
  {
    if |input| < |target| then false else
    var n := |input| - |target|;
    EqualsIsEquality(input[n..], target);
    Compare(Equal, input[n..], target) == 0
  }
}
