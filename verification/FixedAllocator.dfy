/**
 The allocator that serves its first request from a fixed buffer and the rest from the heap
 (src/fixed_allocator.hpp). Copies of an allocator share the buffer; rebound copies have none.
 What malloc returns is a parameter: memory nobody uses.
 */
module FixedAllocator {

  import opened Prelude

  datatype Region = Region(address: nat, bytes: nat)

  predicate Apart(a: Region, b: Region) {
    a.address + a.bytes <= b.address || b.address + b.bytes <= a.address
  }

  class Fixed {
    const address: nat
    const bytes: nat
    var isUsed: bool
    /** The size of the live allocation in the buffer. */
    ghost var block: Option<nat>

    constructor (address: nat, bytes: nat)
      ensures this.address == address && this.bytes == bytes && !isUsed && block == None
    {
      this.address, this.bytes, isUsed, block := address, bytes, false, None;
    }

    function Storage(): Region {
      Region(address, bytes)
    }
  }

  class Memory {
    /** Live heap blocks: their sizes by address. */
    var live: map<nat, nat>
  }

  /** The flag tells whether the buffer is a live allocation, and live regions do not overlap. */
  ghost predicate Consistent(fixed: Fixed, memory: Memory)
    reads fixed, memory
  {
    && (fixed.isUsed <==> fixed.block.Some?)
    && (fixed.block.Some? ==> fixed.block.value <= fixed.bytes)
    && fixed.address !in memory.live
    && (forall p | p in memory.live :: Apart(Region(p, memory.live[p]), fixed.Storage()))
    && (forall p, q | p in memory.live && q in memory.live && p != q ::
          Apart(Region(p, memory.live[p]), Region(q, memory.live[q])))
  }

  /** Memory that malloc can hand out. */
  ghost predicate Unused(fixed: Fixed, memory: Memory, r: Region)
    reads memory
  {
    && r.address !in memory.live && r.address != fixed.address && Apart(r, fixed.Storage())
    && forall p | p in memory.live :: Apart(r, Region(p, memory.live[p]))
  }

  class Allocator {
    const fixed: Fixed?
    const memory: Memory
    const size: nat
    const capacity: nat

    /** `shared` is the buffer of the container; this allocator is one of its copies, or has none. */
    ghost predicate Serves(shared: Fixed) {
      (fixed == shared && shared.bytes == capacity * size) || fixed == null
    }

    constructor (fixed: Fixed?, memory: Memory, size: nat, capacity: nat)
      ensures this.fixed == fixed && this.memory == memory && this.size == size && this.capacity == capacity
    {
      this.fixed, this.memory, this.size, this.capacity := fixed, memory, size, capacity;
    }

    constructor Copy(other: Allocator)
      ensures fixed == other.fixed && memory == other.memory && size == other.size && capacity == other.capacity
    {
      fixed, memory, size, capacity := other.fixed, other.memory, other.size, other.capacity;
    }

    constructor Rebound(other: Allocator, size: nat)
      ensures fixed == null && memory == other.memory && this.size == size && capacity == other.capacity
    {
      fixed, memory, this.size, capacity := null, other.memory, size, other.capacity;
    }

    lemma FitsBuffer(n: nat)
      requires n <= capacity
      ensures size * n <= capacity * size
    {
      assert (capacity - n) * size >= 0;
    }

    /** The buffer if it is free and large enough, else a heap block of exactly the size asked for. */
    method Allocate(n: nat, heap: nat, ghost shared: Fixed) returns (p: nat)
      requires Serves(shared) && Consistent(shared, memory) && Unused(shared, memory, Region(heap, size * n))
      modifies memory, shared
      ensures Consistent(shared, memory)
      ensures if fixed != null && !old(shared.isUsed) && n <= capacity
              then p == shared.address && shared.block == Some(size * n) && memory.live == old(memory.live)
              else p == heap && memory.live == old(memory.live)[heap := size * n] && shared.block == old(shared.block)
    {
      if fixed != null && !fixed.isUsed && n <= capacity {
        FitsBuffer(n);
        fixed.isUsed := true;
        fixed.block := Some(size * n);
        return fixed.address;
      } else {
        memory.live := memory.live[heap := size * n];
        return heap;
      }
    }

    /** Each block goes back the way it came: the buffer to its flag, a heap block to free. Blocks in
        the buffer are returned through a copy that has it, as the standard asks of allocators. */
    method Deallocate(p: nat, ghost shared: Fixed)
      requires Serves(shared) && Consistent(shared, memory)
      requires if p == shared.address then fixed == shared && shared.block.Some? else p in memory.live
      modifies memory, shared
      ensures Consistent(shared, memory)
      ensures if p == shared.address then !shared.isUsed && shared.block == None && memory.live == old(memory.live)
              else memory.live == old(memory.live) - {p} && shared.block == old(shared.block)
    {
      if fixed != null && fixed.address == p {
        fixed.isUsed := false;
        fixed.block := None;
      } else {
        memory.live := memory.live - {p};
      }
    }
  }
}
