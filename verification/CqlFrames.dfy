/**
 The framing of the CQL wire format: cells (a signed 32-bit length and that many bytes, where
 length -1 is null) as scylla-rust-wrapper/src/cql_types/value.rs writes them, the elements of a
 vector, and readers for both, written from the CQL native protocol v5.
 */
module CqlFrames {

  import opened Prelude
  import opened Vint

  type Bytes = seq<byte>

  const I32_MAX := 0x7fff_ffff

  // ----- Items one after the other

  function Join<A>(put: A -> Bytes, items: seq<A>): Bytes {
    if items == [] then [] else put(items[0]) + Join(put, items[1..])
  }

  /** Takes `n` items off the front; returns them and what is left. */
  function Split<A>(take: Bytes -> Option<(A, Bytes)>, n: nat, b: Bytes): Option<(seq<A>, Bytes)> {
    if n == 0 then Some(([], b)) else
    match take(b)
    case None => None
    case Some((item, rest)) =>
      match Split(take, n - 1, rest)
      case None => None
      case Some((items, left)) => Some(([item] + items, left))
  }

  /** Takes items while there are bytes, `n` at most; returns them and what is left. */
  function SplitUpTo<A>(take: Bytes -> Option<(A, Bytes)>, n: nat, b: Bytes): Option<(seq<A>, Bytes)> {
    if n == 0 || b == [] then Some(([], b)) else
    match take(b)
    case None => None
    case Some((item, rest)) =>
      match SplitUpTo(take, n - 1, rest)
      case None => None
      case Some((items, left)) => Some(([item] + items, left))
  }

  ghost predicate Undoes<A>(take: Bytes -> Option<(A, Bytes)>, put: A -> Bytes, item: A) {
    forall rest: Bytes :: take(put(item) + rest) == Some((item, rest))
  }

  lemma {:induction false} SplitJoined<A>(take: Bytes -> Option<(A, Bytes)>, put: A -> Bytes, items: seq<A>, rest: Bytes)
    requires forall i | 0 <= i < |items| :: Undoes(take, put, items[i])
    ensures Split(take, |items|, Join(put, items) + rest) == Some((items, rest))
  {
    if items == [] {
      assert Join(put, items) + rest == rest;
    } else {
      var tail := Join(put, items[1..]) + rest;
      assert Join(put, items) + rest == put(items[0]) + tail;
      assert Undoes(take, put, items[0]);
      SplitJoined(take, put, items[1..], rest);
      assert [items[0]] + items[1..] == items;
    }
  }

  lemma {:induction false} SplitUpToJoined<A>(take: Bytes -> Option<(A, Bytes)>, put: A -> Bytes, items: seq<A>, n: nat)
    requires |items| <= n && forall i | 0 <= i < |items| :: Undoes(take, put, items[i]) && put(items[i]) != []
    ensures SplitUpTo(take, n, Join(put, items)) == Some((items, []))
  {
    if items != [] {
      var tail := Join(put, items[1..]);
      assert Undoes(take, put, items[0]);
      assert take(put(items[0]) + tail) == Some((items[0], tail));
      SplitUpToJoined(take, put, items[1..], n - 1);
      assert [items[0]] + items[1..] == items;
    }
  }

  lemma {:induction false} JoinLonger<A>(put: A -> Bytes, items: seq<A>, k: nat)
    requires k < |items|
    ensures |Join(put, items)| >= |put(items[k])|
  {
    if k > 0 {
      JoinLonger(put, items[1..], k - 1);
    }
  }

  // ----- Cells

  /** i32::to_be_bytes, of the number read as unsigned. */
  function Be32(v: nat): (b: Bytes)
    requires v < 0x1_0000_0000
    ensures |b| == 4
  {
    var hi: nat, lo: nat := v / 0x1_0000, v % 0x1_0000;
    [hi / 256, hi % 256, lo / 256, lo % 256]
  }

  function FromBe32(b: Bytes): nat
    requires |b| >= 4
  {
    var b0: nat, b1: nat, b2: nat, b3: nat := b[0], b[1], b[2], b[3];
    b0 * 0x100_0000 + b1 * 0x1_0000 + b2 * 0x100 + b3
  }

  function Frame(c: Option<Bytes>): Bytes {
    if c.None? then Be32(0xffff_ffff) else Be32(|c.value| % 0x1_0000_0000) + c.value
  }

  function TakeCell(b: Bytes): Option<(Option<Bytes>, Bytes)> {
    if |b| < 4 then None else
    var len := FromBe32(b);
    if len > I32_MAX then Some((None, b[4..]))
    else if |b| < 4 + len then None
    else Some((Some(b[4..4 + len]), b[4 + len..]))
  }

  predicate Fits(c: Option<Bytes>) {
    c.Some? ==> |c.value| <= I32_MAX
  }

  lemma FourBytes(v: nat, rest: Bytes)
    requires v < 0x1_0000_0000
    ensures FromBe32(Be32(v) + rest) == v
  {
  }

  lemma TakeFramed(c: Option<Bytes>, rest: Bytes)
    requires Fits(c)
    ensures TakeCell(Frame(c) + rest) == Some((c, rest))
  {
    var b := Frame(c) + rest;
    var len := if c.None? then 0xffff_ffff else |c.value|;
    FourBytes(len, b[4..]);
    assert b == Be32(len) + b[4..];
    if c.None? {
      assert b[4..] == rest;
    } else {
      assert b[4..4 + len] == c.value && b[4 + len..] == rest;
    }
  }

  function Append(n: nat, b: byte): nat {
    256 * n + b
  }

  /** The four bytes are the digits of `n`, most significant first. */
  predicate Digits(b: Bytes, n: nat) {
    |b| == 4 && n == Append(Append(Append(b[0], b[1]), b[2]), b[3])
  }

  lemma Be32Digits(v: nat, b: Bytes)
    requires v < 0x1_0000_0000 && b == Be32(v)
    ensures Digits(b, v)
  {
    FourBytes(v, []);
    assert b + [] == b;
  }

  /** A null is the length -1. */
  lemma NullFrame()
    ensures Frame(None) == [0xff, 0xff, 0xff, 0xff]
  {
  }

  /** Any other cell is its length, most significant byte first, and its bytes. */
  lemma FrameIs(p: Bytes)
    requires |p| <= I32_MAX
    ensures |Frame(Some(p))| >= 4 && Digits(Frame(Some(p))[..4], |p|) && Frame(Some(p))[4..] == p
  {
    var n := |p|;
    var head := Be32(n);
    assert Frame(Some(p)) == head + p;
    SplitHead(head, p);
    Be32Digits(n, head);
  }

  lemma SplitHead(head: Bytes, rest: Bytes)
    requires |head| == 4
    ensures (head + rest)[..4] == head && (head + rest)[4..] == rest
  {
  }

  lemma TakeUndoesFrame(c: Option<Bytes>)
    requires Fits(c)
    ensures Undoes(TakeCell, Frame, c)
  {
    forall rest: Bytes ensures TakeCell(Frame(c) + rest) == Some((c, rest)) {
      TakeFramed(c, rest);
    }
  }

  // ----- Vector elements

  function LengthOf(p: Bytes): (n: u64)
    ensures |p| < TWO_64 ==> n == |p|
  {
    |p| % TWO_64
  }

  function Prefixed(p: Bytes): Bytes {
    Encode(LengthOf(p)) + p
  }

  function TakePrefixed(b: Bytes): Option<(Bytes, Bytes)> {
    match Decode(b)
    case None => None
    case Some((len, rest)) => if |rest| < len then None else Some((rest[..len], rest[len..]))
  }

  function Raw(p: Bytes): Bytes {
    p
  }

  function TakeFixed(size: nat, b: Bytes): Option<(Bytes, Bytes)> {
    if |b| < size then None else Some((b[..size], b[size..]))
  }

  lemma TakeBehind(prefix: Bytes, p: Bytes, tail: Bytes)
    requires Decode(prefix + (p + tail)) == Some((|p|, p + tail))
    ensures TakePrefixed(prefix + p + tail) == Some((p, tail))
  {
    assert prefix + p + tail == prefix + (p + tail);
    assert (p + tail)[..|p|] == p && (p + tail)[|p|..] == tail;
  }

  lemma TakeEncoded(p: Bytes, len: u64, tail: Bytes)
    requires |p| == len
    ensures TakePrefixed(Encode(len) + p + tail) == Some((p, tail))
  {
    DecodeEncode(len, p + tail);
    TakeBehind(Encode(len), p, tail);
  }

  lemma TakeUndoesPrefixed(p: Bytes)
    requires |p| < TWO_64
    ensures Undoes(TakePrefixed, Prefixed, p)
  {
    forall rest: Bytes ensures TakePrefixed(Prefixed(p) + rest) == Some((p, rest)) {
      TakeEncoded(p, LengthOf(p), rest);
    }
  }

  lemma TakeUndoesRaw(size: nat, p: Bytes)
    requires |p| == size
    ensures Undoes(b => TakeFixed(size, b), Raw, p)
  {
    forall rest: Bytes ensures TakeFixed(size, Raw(p) + rest) == Some((p, rest)) {
      assert (p + rest)[..size] == p && (p + rest)[size..] == rest;
    }
  }
}
