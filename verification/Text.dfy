/**
 String helpers of src/utils.cpp: splitting and joining lists, trimming, and quoting CQL
 identifiers. Characters are classified as in the C locale.
 */
module Text {

  import opened Prelude

  // ----- Trimming

  predicate IsSpace(c: char) {
    c == ' ' || '\t' <= c <= '\r'
  }

  predicate IsTrimmed(s: string) {
    s != [] ==> !IsSpace(s[0]) && !IsSpace(s[|s| - 1])
  }

  /** `t` is `s` without the spaces around it. */
  ghost predicate TrimmedFrom(t: string, s: string) {
    exists i, j | 0 <= i <= j <= |s| ::
      && t == s[i..j] && IsTrimmed(t)
      && (forall k | 0 <= k < |s| && !(i <= k < j) :: IsSpace(s[k]))
  }

  function Trim(s: string): string {
    if s == [] then []
    else if IsSpace(s[0]) then Trim(s[1..])
    else if IsSpace(s[|s| - 1]) then Trim(s[..|s| - 1])
    else s
  }

  lemma {:induction false} TrimBounds(s: string) returns (i: nat, j: nat)
    ensures i <= j <= |s| && Trim(s) == s[i..j] && IsTrimmed(Trim(s))
    ensures forall k | 0 <= k < |s| && !(i <= k < j) :: IsSpace(s[k])
    decreases |s|
  {
    if s != [] && IsSpace(s[0]) {
      var i', j' := TrimBounds(s[1..]);
      i, j := i' + 1, j' + 1;
      assert s[1..][i'..j'] == s[i..j];
      forall k | 0 < k < |s| && !(i <= k < j) ensures IsSpace(s[k]) {
        assert IsSpace(s[1..][k - 1]);
      }
    } else if s != [] && IsSpace(s[|s| - 1]) {
      var t := s[..|s| - 1];
      i, j := TrimBounds(t);
      assert t[i..j] == s[i..j];
      forall k | 0 <= k < |t| && !(i <= k < j) ensures IsSpace(s[k]) {
        assert IsSpace(t[k]);
      }
    } else {
      i, j := 0, |s|;
    }
  }

  lemma TrimIs(s: string)
    ensures TrimmedFrom(Trim(s), s)
  {
    var i, j := TrimBounds(s);
  }

  method TrimInPlace(s: string) returns (t: string)
    ensures t == Trim(s)
  {
    t := s;
    while t != [] && IsSpace(t[0])
      invariant Trim(t) == Trim(s)
      decreases |t|
    {
      t := t[1..];
    }
    while t != [] && IsSpace(t[|t| - 1])
      invariant Trim(t) == Trim(s) && (t != [] ==> !IsSpace(t[0]))
      decreases |t|
    {
      t := t[..|t| - 1];
    }
  }

  lemma {:induction false} TrimSubset(s: string)
    ensures IsTrimmed(Trim(s)) && forall c | c in Trim(s) :: c in s
    decreases |s|
  {
    if s != [] && IsSpace(s[0]) {
      TrimSubset(s[1..]);
    } else if s != [] && IsSpace(s[|s| - 1]) {
      TrimSubset(s[..|s| - 1]);
    }
  }

  // ----- Splitting and joining

  function Piece(s: string, d: char): (p: string)
    ensures p <= s && d !in p && (|p| < |s| ==> s[|p|] == d)
  {
    if s == [] || s[0] == d then [] else [s[0]] + Piece(s[1..], d)
  }

  /** The parts between delimiters, the one after the last included. */
  function Pieces(s: string, d: char): seq<string>
    decreases |s|
  {
    var p := Piece(s, d);
    if p == s then [s] else [p] + Pieces(s[|p| + 1..], d)
  }

  /** The trimmed parts that are not blank. */
  function Kept(pieces: seq<string>): seq<string> {
    if pieces == [] then []
    else (if Trim(pieces[0]) == [] then [] else [Trim(pieces[0])]) + Kept(pieces[1..])
  }

  function Exploded(s: string, d: char): seq<string> {
    Kept(Pieces(s, d))
  }

  method Explode(s: string, vec: seq<string>, d: char) returns (result: seq<string>)
    ensures result == vec + Exploded(s, d)
  {
    result := vec;
    var rest, eof := s, false;
    while !eof
      invariant eof ==> result == vec + Exploded(s, d)
      invariant !eof ==> result + Exploded(rest, d) == vec + Exploded(s, d)
      decreases !eof, |rest|
    {
      var p := Piece(rest, d);
      ghost var pieces := Pieces(rest, d);
      assert pieces[0] == p;
      var token := TrimInPlace(p);
      ghost var kept := if token == [] then [] else [token];
      assert Exploded(rest, d) == kept + Kept(pieces[1..]);
      assert result + Exploded(rest, d) == result + kept + Kept(pieces[1..]);
      if token != [] {
        result := result + [token];
      }
      if p == rest {
        eof := true;
        assert pieces[1..] == [] && result + [] == result;
      } else {
        rest := rest[|p| + 1..];
        assert pieces[1..] == Pieces(rest, d);
      }
    }
  }

  function Imploded(vec: seq<string>, d: char): string {
    if vec == [] then [] else
    var s := Imploded(vec[..|vec| - 1], d);
    (if s == [] then [] else s + [d]) + vec[|vec| - 1]
  }

  method Implode(vec: seq<string>, d: char) returns (s: string)
    ensures s == Imploded(vec, d)
  {
    s := [];
    for i := 0 to |vec|
      invariant s == Imploded(vec[..i], d)
    {
      assert vec[..i + 1][..i] == vec[..i];
      if s != [] {
        s := s + [d];
      }
      s := s + vec[i];
    }
    assert vec[..|vec|] == vec;
  }

  /** An item `explode` can return. */
  predicate IsItem(item: string, d: char) {
    item != [] && IsTrimmed(item) && d !in item
  }

  predicate AreItems(vec: seq<string>, d: char) {
    forall i | 0 <= i < |vec| :: IsItem(vec[i], d)
  }

  lemma {:induction false} PieceStops(a: string, d: char, b: string)
    requires d !in a
    ensures Piece(a, d) == a && Piece(a + [d] + b, d) == a
  {
    if a != [] {
      assert (a + [d] + b)[1..] == a[1..] + [d] + b;
      PieceStops(a[1..], d, b);
    }
  }

  lemma FirstPiece(p: string, d: char, rest: string, s: string)
    requires d !in p && s == p + [d] + rest
    ensures Pieces(s, d) == [p] + Pieces(rest, d)
  {
    PieceStops(p, d, rest);
    assert s[|p| + 1..] == rest;
  }

  lemma Regroup(p: string, rest: string, d: char, item: string)
    ensures p + [d] + rest + [d] + item == p + [d] + (rest + [d] + item)
  {
  }

  lemma AppendLater<T>(x: T, xs: seq<T>, y: T)
    ensures [x] + (xs + [y]) == [x] + xs + [y]
  {
  }

  lemma {:induction false} PiecesJoin(s: string, d: char, item: string, t: string)
    requires d !in item && t == s + [d] + item
    ensures Pieces(t, d) == Pieces(s, d) + [item]
    decreases |s|
  {
    var p := Piece(s, d);
    if p == s {
      PieceStops(item, d, []);
      FirstPiece(s, d, item, t);
    } else {
      var rest := s[|p| + 1..];
      PiecesJoin(rest, d, item, rest + [d] + item);
      Regroup(p, rest, d, item);
      FirstPiece(p, d, rest, s);
      FirstPiece(p, d, rest + [d] + item, t);
      AppendLater(p, Pieces(rest, d), item);
    }
  }

  lemma {:induction false} ImplodedPieces(vec: seq<string>, d: char)
    requires vec != [] && AreItems(vec, d)
    ensures Imploded(vec, d) != [] && Pieces(Imploded(vec, d), d) == vec
  {
    var k := |vec| - 1;
    if k == 0 {
      assert Imploded(vec[..0], d) == [];
      assert Imploded(vec, d) == vec[0];
      PieceStops(vec[0], d, []);
    } else {
      ImplodedPieces(vec[..k], d);
      PiecesJoin(Imploded(vec[..k], d), d, vec[k], Imploded(vec, d));
      assert vec == vec[..k] + [vec[k]];
    }
  }

  lemma {:induction false} ItemsAreKept(vec: seq<string>, d: char)
    requires AreItems(vec, d)
    ensures Kept(vec) == vec
  {
    if vec != [] {
      assert IsItem(vec[0], d);
      ItemsAreKept(vec[1..], d);
    }
  }

  /** Splitting a joined list of items gives the list back. */
  lemma ExplodeUndoesImplode(vec: seq<string>, d: char)
    requires AreItems(vec, d)
    ensures Exploded(Imploded(vec, d), d) == vec
  {
    if vec == [] {
      assert Pieces([], d) == [[]];
      assert Kept([[]]) == Kept([]) == [];
    } else {
      ImplodedPieces(vec, d);
      ItemsAreKept(vec, d);
    }
  }

  lemma {:induction false} PiecesAreFree(s: string, d: char)
    ensures forall i | 0 <= i < |Pieces(s, d)| :: d !in Pieces(s, d)[i]
    decreases |s|
  {
    var p := Piece(s, d);
    if p != s {
      PiecesAreFree(s[|p| + 1..], d);
    }
  }

  lemma {:induction false} KeptAreItems(pieces: seq<string>, d: char)
    requires forall i | 0 <= i < |pieces| :: d !in pieces[i]
    ensures AreItems(Kept(pieces), d)
  {
    if pieces != [] {
      TrimSubset(pieces[0]);
      KeptAreItems(pieces[1..], d);
    }
  }

  /** Splitting, joining and splitting again is splitting. */
  lemma ExplodeIsStable(s: string, d: char)
    ensures AreItems(Exploded(s, d), d)
    ensures Exploded(Imploded(Exploded(s, d), d), d) == Exploded(s, d)
  {
    PiecesAreFree(s, d);
    KeptAreItems(Pieces(s, d), d);
    ExplodeUndoesImplode(Exploded(s, d), d);
  }

  // ----- Identifiers

  predicate IsLower(c: char) {
    'a' <= c <= 'z'
  }

  predicate IsNameChar(c: char) {
    '0' <= c <= '9' || c == '_' || IsLower(c)
  }

  predicate IsLowercase(s: string) {
    s == [] || (IsLower(s[0]) && forall i | 1 <= i < |s| :: IsNameChar(s[i]))
  }

  method IsLowercaseLoop(s: string) returns (r: bool)
    ensures r == IsLowercase(s)
  {
    if s == [] {
      return true;
    }
    if !IsLower(s[0]) {
      return false;
    }
    for i := 1 to |s|
      invariant forall j | 1 <= j < i :: IsNameChar(s[j])
    {
      if !IsNameChar(s[i]) {
        return false;
      }
    }
    return true;
  }

  function Doubled(s: string): string {
    if s == [] then []
    else Doubled(s[..|s| - 1]) + if s[|s| - 1] == '"' then "\"\"" else [s[|s| - 1]]
  }

  function Quoted(s: string): string {
    "\"" + Doubled(s) + "\""
  }

  method QuoteId(s: string) returns (r: string)
    ensures r == Quoted(s)
  {
    r := "\"";
    for i := 0 to |s|
      invariant r == "\"" + Doubled(s[..i])
    {
      assert s[..i + 1][..i] == s[..i];
      if s[i] == '"' {
        r := r + "\"\"";
      } else {
        r := r + [s[i]];
      }
    }
    assert s[..|s|] == s;
    r := r + "\"";
  }

  function EscapeId(s: string): string {
    if IsLowercase(s) then s else Quoted(s)
  }

  // How CQL reads an identifier: taken as it is when quoted, folded to lower case when it is bare,
  // where a reserved word is no identifier.

  function Fold(c: char): char {
    if 'A' <= c <= 'Z' then c - 'A' + 'a' else c
  }

  /** The inside of a quoted name, with doubled quotes halved; None for a single one. */
  function Halved(s: string): Option<string>
    decreases |s|
  {
    if s == [] then Some([]) else
    var n := |s| - 1;
    if s[n] != '"' then
      var rest := Halved(s[..n]);
      if rest.None? then None else Some(rest.value + [s[n]])
    else if n == 0 || s[n - 1] != '"' then None else
      var rest := Halved(s[..n - 1]);
      if rest.None? then None else Some(rest.value + "\"")
  }

  function ReadId(t: string, reserved: set<string>): Option<string> {
    if |t| >= 2 && t[0] == '"' && t[|t| - 1] == '"' then Halved(t[1..|t| - 1])
    else if t != [] && IsLower(Fold(t[0])) && forall i | 1 <= i < |t| :: IsNameChar(Fold(t[i])) then
      var name := seq(|t|, i requires 0 <= i < |t| => Fold(t[i]));
      if name in reserved then None else Some(name)
    else None
  }

  lemma {:induction false} HalvedUndoesDoubled(s: string)
    ensures Halved(Doubled(s)) == Some(s)
  {
    if s != [] {
      var n := |s| - 1;
      var r := Doubled(s[..n]);
      HalvedUndoesDoubled(s[..n]);
      assert s == s[..n] + [s[n]];
      if s[n] == '"' {
        assert Doubled(s)[..|Doubled(s)| - 2] == r;
      } else {
        assert Doubled(s)[..|Doubled(s)| - 1] == r;
      }
    }
  }

  /** The escaped name denotes the original, except that the empty name and lower-case reserved
      words are left unquoted. */
  lemma EscapedIdReadsBack(s: string, reserved: set<string>)
    ensures ReadId(EscapeId(s), reserved) == Some(s) <==> s != [] && !(IsLowercase(s) && s in reserved)
  {
    if IsLowercase(s) {
      if s != [] {
        assert seq(|s|, i requires 0 <= i < |s| => Fold(s[i])) == s;
      }
    } else {
      var q := Quoted(s);
      assert q[1..|q| - 1] == Doubled(s);
      HalvedUndoesDoubled(s);
    }
  }

  /** Two names that do not survive: the empty one, and a reserved word. */
  lemma EscapedIdsLost(reserved: set<string>)
    requires "select" in reserved
    ensures ReadId(EscapeId(""), reserved) == None && ReadId(EscapeId("select"), reserved) == None
  {
    var s := "select";
    assert IsLowercase(s);
    assert seq(|s|, i requires 0 <= i < |s| => Fold(s[i])) == s;
  }

  lemma EscapeIdInjective(s: string, t: string)
    requires EscapeId(s) == EscapeId(t)
    ensures s == t
  {
    EscapedIdReadsBack(s, {});
    EscapedIdReadsBack(t, {});
  }
}
