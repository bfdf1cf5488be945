/**
 The allocator that serves malloc and realloc while the real ones are being looked up
 (examples/result_iteration_bench/result_iteration_bench.c): a bump pointer into a static buffer.
 Sizes are 64-bit and wrap.
 */
module Bootstrap {

  import opened Prelude

  const CAPACITY := 4096

  /** `(size + 7) & ~7`. */
  function AlignUp(size: u64): u64 {
    (size + 7) % TWO_64 / 8 * 8
  }

  /** The block the next request would get, if the test for room passes. */
  function HasRoom(used: nat, size: u64): bool {
    (used + AlignUp(size)) % TWO_64 <= CAPACITY
  }

  /** The bytes a request really needs. */
  function Needed(size: u64): nat {
    (size + 7) / 8 * 8
  }

  /** The test for room is right exactly for the requests that do not wrap around. */
  lemma RoomIsRightExactlyWhen(used: nat, size: u64)
    requires used <= CAPACITY && used % 8 == 0
    ensures (HasRoom(used, size) <==> used + Needed(size) <= CAPACITY) <==> used + Needed(size) < TWO_64
  {
  }

  lemma WrappingRequestIsGranted()
    ensures HasRoom(0, 0xffff_ffff_ffff_ffff) && AlignUp(0xffff_ffff_ffff_ffff) == 0
  {
  }

  /** The bump pointer stays aligned, and moves past a request that does not wrap around. */
  lemma NextUsed(used: nat, size: u64)
    requires used <= CAPACITY && used % 8 == 0 && HasRoom(used, size)
    ensures var next := (used + AlignUp(size)) % TWO_64;
            next % 8 == 0 && (used + Needed(size) < TWO_64 ==> used + size <= next)
  {
  }

  datatype Block = Block(offset: nat, size: nat)

  /** The blocks lie one after the other, aligned, in the used part of the buffer. */
  ghost predicate Placed(blocks: seq<Block>, used: nat) {
    && used <= CAPACITY && used % 8 == 0
    && (forall i | 0 <= i < |blocks| :: blocks[i].offset % 8 == 0 && blocks[i].offset + blocks[i].size <= used)
    && (forall i, j | 0 <= i < j < |blocks| :: blocks[i].offset + blocks[i].size <= blocks[j].offset)
  }

  lemma PlaceNext(blocks: seq<Block>, used: nat, size: u64)
    requires Placed(blocks, used) && used + Needed(size) <= CAPACITY
    ensures Placed(blocks + [Block(used, size)], used + AlignUp(size)) && size <= AlignUp(size)
  {
  }

  /** A granted request is placed behind the blocks exactly when it does not wrap around. */
  lemma PlaceNextExactlyWhen(blocks: seq<Block>, used: nat, size: u64)
    requires Placed(blocks, used) && HasRoom(used, size)
    ensures Placed(blocks + [Block(used, size)], (used + AlignUp(size)) % TWO_64) <==> used + Needed(size) < TWO_64
  {
    RoomIsRightExactlyWhen(used, size);
    if used + Needed(size) < TWO_64 {
      PlaceNext(blocks, used, size);
    } else {
      var next := blocks + [Block(used, size)];
      assert next[|blocks|] == Block(used, size);
    }
  }

  lemma SlicePrefix(s: seq<byte>, from: nat, m: nat, n: nat)
    requires n <= m && from + m <= |s|
    ensures s[from..from + m][..n] == s[from..from + n]
  {
  }

  function CopySize(used: nat, offset: nat, size: u64): nat
    requires offset <= used
  {
    if used - offset < size then used - offset else size
  }

  /** Where a reallocation copies to: of the granted requests, the ones that wrap around stay inside
      the buffer only if what follows the old block fits behind it once more. */
  lemma CopyFitsExactlyWhen(used: nat, offset: nat, size: u64)
    requires offset <= used <= CAPACITY && used % 8 == 0 && HasRoom(used, size)
    ensures used + CopySize(used, offset, size) <= CAPACITY <==>
            used + Needed(size) < TWO_64 || 2 * used - offset <= CAPACITY
  {
    RoomIsRightExactlyWhen(used, size);
  }

  lemma WrappingReallocOverruns()
    ensures HasRoom(CAPACITY, 0xffff_ffff_ffff_ffff) && CAPACITY + CopySize(CAPACITY, 0, 0xffff_ffff_ffff_ffff) > CAPACITY
  {
  }

  class Allocator {
    const buf: array<byte>
    var used: nat
    /** Every block handed out; free leaves them alone. */
    ghost var blocks: seq<Block>

    /** Kept by every request. */
    ghost predicate Bounded()
      reads this
    {
      buf.Length == CAPACITY && used <= CAPACITY && used % 8 == 0
    }

    /** Kept by every request that does not wrap around. */
    ghost predicate Valid()
      reads this
    {
      Bounded() && Placed(blocks, used)
    }

    constructor ()
      ensures Valid() && used == 0 && blocks == [] && fresh(buf)
    {
      buf := new byte[CAPACITY](_ => 0);
      used := 0;
      blocks := [];
    }

    /** The blocks stay apart and inside the buffer exactly as long as no request wraps around. */
    method Malloc(size: u64) returns (ptr: Option<nat>)
      requires Bounded()
      modifies this
      ensures Bounded()
      ensures ptr == if HasRoom(old(used), size) then Some(old(used)) else None
      ensures ptr.Some? ==> used == (old(used) + AlignUp(size)) % TWO_64 && blocks == old(blocks) + [Block(ptr.value, size)]
      ensures ptr.None? ==> blocks == old(blocks) && used == old(used)
      ensures old(Valid()) ==> (Valid() <==> ptr.None? || old(used) + Needed(size) < TWO_64)
      ensures old(used) + Needed(size) < TWO_64 ==>
                && (ptr.Some? <==> old(used) + Needed(size) <= CAPACITY)
                && (ptr.Some? ==> ptr.value + size <= used)
    {
      RoomIsRightExactlyWhen(used, size);
      var aligned := AlignUp(size);
      if (used + aligned) % TWO_64 > CAPACITY {
        return None;
      }
      NextUsed(used, size);
      if Placed(blocks, used) {
        PlaceNextExactlyWhen(blocks, used, size);
      }
      ptr := Some(used);
      used := (used + aligned) % TWO_64;
      blocks := blocks + [Block(ptr.value, size)];
    }

    /** `block` is the block of this buffer to move, or None for a pointer elsewhere. As C demands,
        what is copied has to fit the buffer. Nothing below the new block changes. */
    method Realloc(ghost block: Option<Block>, oldOffset: Option<nat>, size: u64) returns (ptr: Option<nat>)
      requires Bounded() && (block.Some? <==> oldOffset.Some?)
      requires block.Some? ==> oldOffset.value == block.value.offset && block.value.offset + block.value.size <= used
      requires oldOffset.Some? && HasRoom(used, size) ==> used + CopySize(used, oldOffset.value, size) <= CAPACITY
      modifies this, buf
      ensures Bounded()
      ensures ptr == if HasRoom(old(used), size) then Some(old(used)) else None
      ensures ptr.Some? ==> used == (old(used) + AlignUp(size)) % TWO_64 && blocks == old(blocks) + [Block(ptr.value, size)]
      ensures ptr.None? ==> blocks == old(blocks) && used == old(used)
      ensures old(Valid()) ==> (Valid() <==> ptr.None? || old(used) + Needed(size) < TWO_64)
      ensures old(used) + Needed(size) < TWO_64 ==>
                && (ptr.Some? <==> old(used) + Needed(size) <= CAPACITY)
                && (ptr.Some? ==> ptr.value + size <= used)
      ensures buf[..old(used)] == old(buf[..used])
      ensures ptr.Some? && block.Some? ==>
                var n := if block.value.size < size then block.value.size else size;
                ptr.value + n <= CAPACITY &&
                buf[ptr.value..ptr.value + n] == old(buf[block.value.offset..block.value.offset + n])
    {
      var oldUsed := used;
      ptr := Malloc(size);
      if ptr.None? || oldOffset.None? {
        return;
      }
      var from := oldOffset.value;
      var copySize := CopySize(oldUsed, from, size);
      ghost var n := if block.value.size < size then block.value.size else size;
      ghost var before := buf[..];
      CopyBytes(oldUsed, from, copySize);
      SlicePrefix(buf[..], oldUsed, copySize, n);
      SlicePrefix(before, from, copySize, n);
    }

    /** memcpy inside the buffer, to a place after the source. */
    method CopyBytes(to: nat, from: nat, n: nat)
      requires from + n <= to && to + n <= buf.Length
      modifies buf
      ensures buf[..][to..to + n] == old(buf[..])[from..from + n]
      ensures buf[..to] == old(buf[..to])
    {
      for i := 0 to n
        invariant buf[to..to + i] == old(buf[from..from + i])
        invariant buf[..to] == old(buf[..to])
      {
        assert buf[from + i] == buf[..to][from + i];
        buf[to + i] := buf[from + i];
      }
    }
  }
}
