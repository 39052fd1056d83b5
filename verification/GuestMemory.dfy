/** Bounds-checked access to guest system memory (devices/utils/mem-manager.cpp). */
module GuestMemory {
  import opened Words

  const U16: nat := 0x1_0000
  const U32: nat := 0x1_0000_0000
  const U64: nat := 0x1_0000_0000_0000_0000

  /** Guest-physical addresses [start, end). */
  datatype Region = Region(start: nat, end: nat) {
    /** The region is small enough that an in-range address plus an in-range size stays below 2^64. */
    predicate Valid() {
      start < end && 2 * end - start <= U64
    }
  }

  /** System memory as the devices map it. */
  const SYSTEM_MEMORY := Region(0x10_0000, 0x20_0000)

  /** Increment of a uint16_t. */
  function Inc16(x: nat): (r: nat)
    requires x < U16
    ensures r < U16
  {
    if x + 1 == U16 then 0 else x + 1
  }

  /** A 16-bit counter after `x` increments. */
  function Count16(x: nat): (r: nat)
    ensures r < U16
  {
    Mod(x, U16)
  }

  lemma {:induction false} CountNext(x: nat)
    ensures Count16(x + 1) == Inc16(Count16(x))
    decreases x
  {
    if x >= U16 {
      CountNext(x - U16);
    }
  }

  /** Counters fewer than 65536 increments apart are equal only if they are the same count. */
  lemma CountsDiffer(x: nat, d: nat)
    requires d < U16
    ensures Count16(x + d) == Count16(x) <==> d == 0
  {
    if d > 0 {
      ModShiftDiffers(x, d, U16);
    }
  }

  function Add64(a: nat, b: nat): nat {
    (a + b) % U64
  }

  /** `MemoryManager::oob`, in 64-bit arithmetic. */
  predicate Oob(m: Region, addr: nat, size: nat) {
    || addr < m.start
    || Add64(addr, size) < m.start
    || addr >= m.end
    || Add64(addr, size) > m.end
    || size > m.end - m.start
  }

  /** The block lies in the region, in unbounded arithmetic. */
  predicate Inside(m: Region, addr: nat, size: nat) {
    m.start <= addr < m.end && addr + size <= m.end
  }

  /** Wrap-around never hides an out-of-range block. */
  lemma OobIsExact(m: Region, addr: nat, size: nat)
    requires m.Valid() && addr < U64 && size < U64
    ensures Oob(m, addr, size) <==> !Inside(m, addr, size)
  {
    if m.start <= addr < m.end && size <= m.end - m.start {
      assert addr + size < U64;
      assert Add64(addr, size) == addr + size;
    }
  }

  class MemoryManager {
    const region: Region
    const memory: array<Byte>

    ghost predicate Valid() {
      region.Valid() && memory.Length == region.end - region.start
    }

    constructor (region: Region, memory: array<Byte>)
      requires region.Valid() && memory.Length == region.end - region.start
      ensures Valid() && this.region == region && this.memory == memory
    {
      this.region := region;
      this.memory := memory;
    }

    method Read(addr: nat, size: nat) returns (r: Option<seq<Byte>>)
      requires Valid() && addr < U64 && size < U64
      ensures r.Some? <==> Inside(region, addr, size)
      ensures r.Some? ==> r.value == memory[addr - region.start..addr - region.start + size]
    {
      OobIsExact(region, addr, size);
      if Oob(region, addr, size) {
        return None;
      }
      var at := addr - region.start;
      return Some(memory[at..at + size]);
    }

    /** On success exactly the addressed bytes change; otherwise none do. */
    method Write(addr: nat, data: seq<Byte>) returns (ok: bool)
      requires Valid() && addr < U64 && |data| < U64
      modifies memory
      ensures ok <==> Inside(region, addr, |data|)
      ensures forall k :: 0 <= k < memory.Length ==>
        memory[k] == if ok && addr - region.start <= k < addr - region.start + |data|
                     then data[k - (addr - region.start)] else old(memory[k])
    {
      OobIsExact(region, addr, |data|);
      ok := !Oob(region, addr, |data|);
      if ok {
        var at := addr - region.start;
        for i := 0 to |data|
          invariant forall k :: 0 <= k < memory.Length ==>
            memory[k] == if at <= k < at + i then data[k - at] else old(memory[k])
        {
          memory[at + i] := data[i];
        }
      }
    }
  }
}
