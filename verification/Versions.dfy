/** Choosing the versions to run the integration tests against (ci/version_fetch.py). */
module Versions {

  datatype Version = Version(major: nat, minor: nat, patch: nat, isDev: bool, patchRest: string)

  /** Python's order on strings. */
  predicate StringLess(a: string, b: string) {
    b != [] && (a == [] || a[0] < b[0] || (a[0] == b[0] && StringLess(a[1..], b[1..])))
  }

  /** Version.__lt__. */
  predicate Less(a: Version, b: Version) {
    if a.major != b.major then a.major < b.major
    else if a.minor != b.minor then a.minor < b.minor
    else if a.patch != b.patch then a.patch < b.patch
    else if a.isDev == b.isDev then StringLess(a.patchRest, b.patchRest)
    else a.isDev
  }

  lemma {:induction false} StringLessIsStrictTotal(a: string, b: string, c: string)
    ensures !StringLess(a, a)
    ensures a != b ==> (StringLess(a, b) <==> !StringLess(b, a))
    ensures StringLess(a, b) && StringLess(b, c) ==> StringLess(a, c)
  {
    if a != [] && b != [] {
      assert a == [a[0]] + a[1..] && b == [b[0]] + b[1..];
      StringLessIsStrictTotal(a[1..], b[1..], if c == [] then [] else c[1..]);
    } else if a != [] {
      StringLessIsStrictTotal(a[1..], [], []);
    }
  }

  /** A strict weak order; versions neither of which is less differ in nothing but their raw text. */
  lemma LessIsStrictWeakOrder(a: Version, b: Version, c: Version)
    ensures !Less(a, a)
    ensures Less(a, b) ==> !Less(b, a)
    ensures Less(a, b) && Less(b, c) ==> Less(a, c)
    ensures !Less(a, b) && !Less(b, a) <==> a == b
    ensures Less(a, c) ==> Less(a, b) || Less(b, c)
  {
    StringLessIsStrictTotal(a.patchRest, b.patchRest, c.patchRest);
    StringLessIsStrictTotal(b.patchRest, c.patchRest, a.patchRest);
    StringLessIsStrictTotal(a.patchRest, c.patchRest, b.patchRest);
    StringLessIsStrictTotal(a.patchRest, a.patchRest, a.patchRest);
  }

  /** The strings are the same up to position `n`, where the first ends or has the smaller character. */
  predicate DecidedAt(a: string, b: string, n: nat) {
    n <= |a| && n < |b| && a[..n] == b[..n] && (n == |a| || a[n] < b[n])
  }

  lemma {:induction false} Decision(a: string, b: string) returns (n: nat)
    requires StringLess(a, b)
    ensures DecidedAt(a, b, n)
  {
    if a == [] || a[0] < b[0] {
      n := 0;
    } else {
      var m := Decision(a[1..], b[1..]);
      n := m + 1;
      assert a[..n] == [a[0]] + a[1..][..m] && b[..n] == [b[0]] + b[1..][..m];
    }
  }

  lemma {:induction false} Decided(a: string, b: string, n: nat)
    requires DecidedAt(a, b, n)
    ensures StringLess(a, b)
  {
    if n > 0 {
      assert a[0] == a[..n][0] == b[..n][0] == b[0];
      assert a[1..][..n - 1] == a[..n][1..] && b[1..][..n - 1] == b[..n][1..];
      Decided(a[1..], b[1..], n - 1);
    }
  }

  /** A string is less than those it is a proper prefix of; otherwise the first difference decides. */
  lemma StringLessIs(a: string, b: string)
    ensures StringLess(a, b) <==> exists n :: DecidedAt(a, b, n)
  {
    if StringLess(a, b) {
      var n := Decision(a, b);
    } else if n :| DecidedAt(a, b, n) {
      Decided(a, b, n);
    }
  }

  predicate SameSeries(a: Version, b: Version) {
    a.major == b.major && a.minor == b.minor
  }

  predicate SeriesLess(a: Version, b: Version) {
    a.major < b.major || (a.major == b.major && a.minor < b.minor)
  }

  /** The positions of the versions that pass and are the first of their series to do so. */
  function FirstOnes(all: seq<Version>, passes: Version -> bool, n: nat): (firsts: seq<nat>)
    requires n <= |all|
    ensures forall p | 0 <= p < |firsts| :: firsts[p] < n && passes(all[firsts[p]])
    ensures forall p, q | 0 <= p < q < |firsts| :: firsts[p] < firsts[q]
  {
    if n == 0 then [] else
    var firsts := FirstOnes(all, passes, n - 1);
    if passes(all[n - 1]) && !HasSeries(all, firsts, all[n - 1]) then firsts + [n - 1] else firsts
  }

  predicate HasSeries(all: seq<Version>, positions: seq<nat>, v: Version)
    requires forall p | 0 <= p < |positions| :: positions[p] < |all|
  {
    exists p | 0 <= p < |positions| :: SameSeries(all[positions[p]], v)
  }

  function At(all: seq<Version>, positions: seq<nat>): (vs: seq<Version>)
    requires forall p | 0 <= p < |positions| :: positions[p] < |all|
    ensures |vs| == |positions| && forall p | 0 <= p < |vs| :: vs[p] == all[positions[p]]
  {
    seq(|positions|, p requires 0 <= p < |positions| => all[positions[p]])
  }

  /** Every passing version is of the series of a first one, not after it. */
  lemma {:induction false} FirstOf(all: seq<Version>, passes: Version -> bool, n: nat, k: nat) returns (p: nat)
    requires k < n <= |all| && passes(all[k])
    ensures p < |FirstOnes(all, passes, n)|
    ensures SameSeries(all[FirstOnes(all, passes, n)[p]], all[k]) && FirstOnes(all, passes, n)[p] <= k
  {
    var before := FirstOnes(all, passes, n - 1);
    if k < n - 1 {
      p := FirstOf(all, passes, n - 1, k);
    } else if HasSeries(all, before, all[k]) {
      p :| 0 <= p < |before| && SameSeries(all[before[p]], all[k]);
    } else {
      p := |before|;
    }
  }

  predicate DistinctSeries(all: seq<Version>, positions: seq<nat>)
    requires forall p | 0 <= p < |positions| :: positions[p] < |all|
  {
    forall p, q | 0 <= p < q < |positions| :: !SameSeries(all[positions[p]], all[positions[q]])
  }

  lemma {:induction false} FirstOnesDistinct(all: seq<Version>, passes: Version -> bool, n: nat)
    requires n <= |all|
    ensures DistinctSeries(all, FirstOnes(all, passes, n))
  {
    if n > 0 {
      FirstOnesDistinct(all, passes, n - 1);
    }
  }

  lemma {:induction false} FirstOnesPrefix(all: seq<Version>, passes: Version -> bool, m: nat, n: nat)
    requires m <= n <= |all|
    ensures FirstOnes(all, passes, m) <= FirstOnes(all, passes, n)
  {
    if m < n {
      FirstOnesPrefix(all, passes, m, n - 1);
    }
  }

  function Take<T>(s: seq<T>, count: nat): seq<T> {
    if |s| <= count then s else s[..count]
  }

  /** The first passing version of each of the first `count` series, whatever the list. */
  method FilterVersions(all: seq<Version>, count: nat, passes: Version -> bool) returns (result: seq<Version>)
    ensures result == At(all, Take(FirstOnes(all, passes, |all|), count))
  {
    result := [];
    for i := 0 to |all|
      invariant result == At(all, FirstOnes(all, passes, i)) && |result| <= count
    {
      var ver := all[i];
      ghost var firsts := FirstOnes(all, passes, i);
      if passes(ver) {
        var known := false;
        for j := 0 to |result|
          invariant known <==> exists p | 0 <= p < j :: SameSeries(all[firsts[p]], ver)
        {
          if SameSeries(result[j], ver) {
            known := true;
            break;
          }
        }
        if !known {
          if |result| >= count {
            FirstOnesPrefix(all, passes, i + 1, |all|);
            assert Take(FirstOnes(all, passes, |all|), count) == firsts;
            return;
          }
          result := result + [ver];
        }
      }
    }
  }

  predicate Descending(all: seq<Version>) {
    forall i, j | 0 <= i < j < |all| :: !Less(all[i], all[j])
  }

  lemma LowerSeries(a: Version, b: Version)
    requires !Less(a, b) && !SameSeries(a, b)
    ensures SeriesLess(b, a)
  {
  }

  /** Of a descending list, what is chosen is the greatest passing version of each of the highest
      series that have one; series left out are lower, and none is left out unless `count` are in. */
  lemma ChoosesGreatestOfHighest(all: seq<Version>, count: nat, passes: Version -> bool, p: nat, k: nat)
    requires Descending(all) && k < |all| && passes(all[k])
    requires p < |Take(FirstOnes(all, passes, |all|), count)|
    ensures var chosen := At(all, Take(FirstOnes(all, passes, |all|), count));
            && passes(chosen[p]) && chosen[p] in all
            && (SameSeries(chosen[p], all[k]) ==> !Less(chosen[p], all[k]))
            && ((exists q | 0 <= q < |chosen| :: SameSeries(chosen[q], all[k])) ||
                (|chosen| == count && SeriesLess(all[k], chosen[p])))
            && (forall q | 0 <= q < |chosen| && q != p :: !SameSeries(chosen[p], chosen[q]))
  {
    var firsts := FirstOnes(all, passes, |all|);
    var taken := Take(firsts, count);
    var chosen := At(all, taken);
    FirstOnesDistinct(all, passes, |all|);
    LessIsStrictWeakOrder(chosen[p], chosen[p], chosen[p]);
    var f := FirstOf(all, passes, |all|, k);
    if f < |taken| {
      assert SameSeries(chosen[f], all[k]);
    } else {
      assert firsts[p] < firsts[f] <= k;
      assert !Less(all[firsts[p]], all[k]);
      assert !SameSeries(all[firsts[p]], all[firsts[f]]);
      LowerSeries(chosen[p], all[k]);
    }
  }

  /** What is chosen has the highest patch number of the passing versions of its series, is a release
      if one with that number is, and has the greatest rest among those. */
  lemma ChoosesNewest(all: seq<Version>, count: nat, passes: Version -> bool, p: nat, k: nat)
    requires Descending(all) && k < |all| && passes(all[k])
    requires p < |Take(FirstOnes(all, passes, |all|), count)|
    requires SameSeries(At(all, Take(FirstOnes(all, passes, |all|), count))[p], all[k])
    ensures var chosen, v := At(all, Take(FirstOnes(all, passes, |all|), count))[p], all[k];
            && v.patch <= chosen.patch
            && (v.patch == chosen.patch && !v.isDev ==> !chosen.isDev)
            && (v.patch == chosen.patch && v.isDev == chosen.isDev ==>
                  !(exists n :: DecidedAt(chosen.patchRest, v.patchRest, n)))
  {
    ChoosesGreatestOfHighest(all, count, passes, p, k);
    StringLessIs(At(all, Take(FirstOnes(all, passes, |all|), count))[p].patchRest, all[k].patchRest);
  }

  /** Nothing is chosen only if nothing passes or nothing is asked for. */
  lemma ChoosesSomething(all: seq<Version>, count: nat, passes: Version -> bool, k: nat)
    requires k < |all| && passes(all[k]) && count > 0
    ensures Take(FirstOnes(all, passes, |all|), count) != []
  {
    var f := FirstOf(all, passes, |all|, k);
  }
}
