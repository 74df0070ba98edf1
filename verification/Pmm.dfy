/** kernel/mm/pmm/pmm_bitmap.c: the physical page allocator. */
module Pmm {
  import opened Machine
  import opened Bitmap

  datatype MemKind = Usable | AcpiReclaimable | BootloaderReclaimable | Other

  /** One entry of the boot loader's memory map. */
  datatype MemEntry = MemEntry(base: nat, length: nat, kind: MemKind)

  /** Frames i .. i + count - 1 exist and are all free. */
  ghost predicate FreeRun(used: set<nat>, frames: nat, i: nat, count: nat) {
    i + count <= frames && Range(i, count) !! used
  }

  /** i starts the lowest free run of `count` frames. */
  ghost predicate LowestRun(used: set<nat>, frames: nat, i: nat, count: nat) {
    FreeRun(used, frames, i, count) && forall k: nat :: k < i ==> !FreeRun(used, frames, k, count)
  }

  ghost predicate NoRun(used: set<nat>, frames: nat, count: nat) {
    forall k: nat :: !FreeRun(used, frames, k, count)
  }

  /** Frame 0 in use keeps runs off address 0, which stands for failure. */
  lemma NoRunAtZero(used: set<nat>, frames: nat, n: nat)
    requires 0 in used && n > 0
    ensures !LowestRun(used, frames, 0, n)
  {
    assert 0 in Range(0, n);
  }

  /** A used frame rules out every run that would contain it, which is what the skip-ahead step relies on. */
  lemma UsedFrameBlocksRuns(used: set<nat>, frames: nat, i: nat, j: nat, count: nat)
    requires i <= j < i + count
    requires j in used || j >= frames
    ensures forall k: nat :: i <= k <= j ==> !FreeRun(used, frames, k, count)
  {
    forall k: nat | i <= k <= j ensures !FreeRun(used, frames, k, count) {
      assert j in Range(k, count);
    }
  }

  /** Physical pages a memory-map entry covers completely, from its base page on. */
  ghost function EntryFrames(e: MemEntry): set<nat> {
    Range(e.base / PAGE, e.length / PAGE)
  }

  /** Every frame of the first n entries that is usable. */
  ghost function UsableFrames(entries: seq<MemEntry>, n: nat): (s: set<nat>)
    requires n <= |entries|
    ensures forall f: nat :: f in s <==>
              exists i :: 0 <= i < n && entries[i].kind == Usable && f in EntryFrames(entries[i])
  {
    if n == 0 then {}
    else UsableFrames(entries, n - 1) + if entries[n - 1].kind == Usable then EntryFrames(entries[n - 1]) else {}
  }

  predicate CountsAsRam(kind: MemKind) {
    kind == Usable || kind == AcpiReclaimable || kind == BootloaderReclaimable
  }

  /** What the boot protocol promises: usable entries are page aligned and no entry wraps. */
  ghost predicate BootMap(entries: seq<MemEntry>) {
    forall i :: 0 <= i < |entries| ==>
      entries[i].base + entries[i].length < TWO64 &&
      (entries[i].kind == Usable ==> entries[i].base % PAGE == 0 && entries[i].length % PAGE == 0)
  }

  function DivRoundUp(x: nat, align: nat): nat
    requires align > 0
  {
    (x + align - 1) / align
  }

  /** The page of frame f lies wholly in a usable entry. */
  ghost predicate PageUsable(entries: seq<MemEntry>, f: nat) {
    exists i :: 0 <= i < |entries| && entries[i].kind == Usable && PageInside(entries[i], f)
  }

  ghost predicate PageInside(e: MemEntry, f: nat) {
    e.base <= f * PAGE && (f + 1) * PAGE <= e.base + e.length
  }

  /** The page of frame f holds one of the `count` bytes from `base` on. */
  ghost predicate HoldsByte(base: nat, count: nat, f: nat) {
    exists k: nat :: k < count && ByteIn(base, k, f)
  }

  ghost predicate ByteIn(base: nat, k: nat, f: nat) {
    f * PAGE <= base + k < (f + 1) * PAGE
  }

  /** The entry has a byte for every eight bits. */
  predicate FitsBits(e: MemEntry, bits: nat) {
    e.length * 8 >= bits
  }

  /** What init_pmm leaves free, in terms of addresses: the pages inside usable entries, less those with a byte of the
      bitmap. */
  ghost predicate FreeAtBoot(entries: seq<MemEntry>, base: nat, bytes: nat, free: set<nat>) {
    forall f: nat :: f in free <==> PageUsable(entries, f) && !HoldsByte(base, bytes, f)
  }

  lemma UsablePages(entries: seq<MemEntry>, f: nat)
    requires BootMap(entries)
    ensures f in UsableFrames(entries, |entries|) <==> PageUsable(entries, f)
  {
    forall i | 0 <= i < |entries| && entries[i].kind == Usable
      ensures f in EntryFrames(entries[i]) <==> PageInside(entries[i], f)
    {
      EntryPages(entries[i], f);
    }
    if PageUsable(entries, f) {
      var i :| 0 <= i < |entries| && entries[i].kind == Usable && PageInside(entries[i], f);
      assert f in EntryFrames(entries[i]);
    }
  }

  lemma EntryPages(e: MemEntry, f: nat)
    requires e.base % PAGE == 0 && e.length % PAGE == 0
    ensures f in EntryFrames(e) <==> PageInside(e, f)
  {
  }

  /** Whole pages cover their bytes and no others. */
  lemma BitmapPages(base: nat, bytes: nat, f: nat)
    requires base % PAGE == 0
    ensures f in Range(base / PAGE, DivRoundUp(bytes, PAGE)) <==> HoldsByte(base, bytes, f)
  {
    var first := base / PAGE;
    assert base == first * PAGE;
    if f in Range(first, DivRoundUp(bytes, PAGE)) {
      assert ByteIn(base, (f - first) * PAGE, f) && (f - first) * PAGE < bytes;
    }
    if HoldsByte(base, bytes, f) {
      var k: nat :| k < bytes && ByteIn(base, k, f);
      assert f - first == k / PAGE;
    }
  }

  lemma BootFree(entries: seq<MemEntry>, base: nat, bytes: nat, free: set<nat>)
    requires BootMap(entries) && base % PAGE == 0
    requires free == UsableFrames(entries, |entries|) - Range(base / PAGE, DivRoundUp(bytes, PAGE))
    ensures FreeAtBoot(entries, base, bytes, free)
  {
    hide UsableFrames, DivRoundUp, PageUsable, HoldsByte, Range;
    forall f: nat ensures f in free <==> PageUsable(entries, f) && !HoldsByte(base, bytes, f) {
      UsablePages(entries, f);
      BitmapPages(base, bytes, f);
    }
  }

  lemma BytesForBits(e: MemEntry, bits: nat)
    ensures e.length >= DivRoundUp(bits, BITS_IN_BYTE) <==> FitsBits(e, bits)
    ensures DivRoundUp(bits, BITS_IN_BYTE) == (bits + BITS_IN_BYTE - 1) / BITS_IN_BYTE
  {
  }

  /** get_ram_max_size: the highest end of an entry that counts as RAM. */
  method RamMaxSize(entries: seq<MemEntry>) returns (top: nat)
    ensures forall i :: 0 <= i < |entries| && CountsAsRam(entries[i].kind) ==> entries[i].base + entries[i].length <= top
    ensures top == 0 || exists i :: 0 <= i < |entries| && CountsAsRam(entries[i].kind) && entries[i].base + entries[i].length == top
  {
    top := 0;
    for i := 0 to |entries|
      invariant forall k :: 0 <= k < i && CountsAsRam(entries[k].kind) ==> entries[k].base + entries[k].length <= top
      invariant top == 0 || exists k :: 0 <= k < i && CountsAsRam(entries[k].kind) && entries[k].base + entries[k].length == top
    {
      if CountsAsRam(entries[i].kind) && entries[i].base + entries[i].length > top {
        top := entries[i].base + entries[i].length;
      }
    }
  }

  /** get_bitmap_region: the first usable entry long enough for the bitmap, or -1. */
  method BitmapRegion(entries: seq<MemEntry>, ramSize: nat) returns (index: int)
    ensures -1 <= index < |entries|
    ensures forall k :: 0 <= k < (if index == -1 then |entries| else index) ==>
              !(entries[k].kind == Usable && FitsBits(entries[k], ramSize / PAGE))
    ensures index != -1 ==> entries[index].kind == Usable && FitsBits(entries[index], ramSize / PAGE)
  {
    hide DivRoundUp, FitsBits;
    for i := 0 to |entries|
      invariant forall k :: 0 <= k < i ==> !(entries[k].kind == Usable && FitsBits(entries[k], ramSize / PAGE))
    {
      BytesForBits(entries[i], ramSize / PAGE);
      if entries[i].kind == Usable && entries[i].length >= DivRoundUp(ramSize / PAGE, BITS_IN_BYTE) {
        return i;
      }
    }
    return -1;
  }

  class PhysicalMemory {
    const bitmap: TzBitmap

    ghost predicate Valid()
      reads bitmap, bitmap.bytes
    {
      bitmap.Valid() && bitmap.bitCount < 0x100_0000_0000
    }

    /** The frames the bitmap marks as used. */
    ghost function Used(): (s: set<nat>)
      reads bitmap
    {
      bitmap.ones
    }

    ghost function Frames(): (n: nat) {
      bitmap.bitCount
    }

    ghost function Free(): (s: set<nat>)
      reads bitmap
    {
      Range(0, Frames()) - Used()
    }

    /** init_pmm. `region` is the entry get_bitmap_region picked; without one the kernel panics. */
    constructor (entries: seq<MemEntry>, ramSize: nat, region: nat)
      requires BootMap(entries) && ramSize < 0x10_0000_0000_0000  // 52-bit physical addresses
      requires forall i :: 0 <= i < |entries| && CountsAsRam(entries[i].kind) ==> entries[i].base + entries[i].length <= ramSize
      requires region < |entries| && entries[region].kind == Usable
      requires FitsBits(entries[region], ramSize / PAGE)
      ensures Valid() && fresh(bitmap) && fresh(bitmap.bytes)
      ensures Frames() == ramSize / PAGE && bitmap.bytes.Length <= entries[region].length
      ensures FreeAtBoot(entries, entries[region].base, bitmap.bytes.Length, Free())
    {
      hide FreeAtBoot;
      var bits := ramSize / PAGE;
      var pages := DivRoundUp(DivRoundUp(bits, BITS_IN_BYTE), PAGE);
      var bits8 := new TzBitmap(bits);
      bitmap := bits8;
      new;
      bitmap.Fill();
      MarkUsable(entries);
      BytesForBits(entries[region], bits);
      RoundedPages(entries[region], pages, DivRoundUp(bits, BITS_IN_BYTE));
      MarkRangeUsed(entries[region].base, pages);
      assert Free() == UsableFrames(entries, |entries|) - Range(entries[region].base / PAGE, pages);
      BootFree(entries, entries[region].base, bitmap.bytes.Length, Free());
    }

    /** The loop of init_pmm over the memory map. */
    method MarkUsable(entries: seq<MemEntry>)
      requires Valid() && BootMap(entries) && Used() == Range(0, Frames())
      requires forall i :: 0 <= i < |entries| && entries[i].kind == Usable ==>
                 (entries[i].base + entries[i].length) / PAGE <= Frames()
      modifies bitmap, bitmap.bytes
      ensures Valid() && Used() == Range(0, Frames()) - UsableFrames(entries, |entries|)
      ensures UsableFrames(entries, |entries|) <= Range(0, Frames())
    {
      for i := 0 to |entries|
        invariant Valid() && Used() == Range(0, Frames()) - UsableFrames(entries, i)
        invariant UsableFrames(entries, i) <= Range(0, Frames())
      {
        if entries[i].kind == Usable {
          MarkRegionFree(entries[i]);
        }
      }
    }

    /** The loop marking `count` consecutive pages as used. */
    method MarkRangeUsed(addr: nat, count: nat)
      requires Valid() && addr / PAGE + count <= Frames()
      modifies bitmap, bitmap.bytes
      ensures Valid() && Used() == old(Used()) + Range(addr / PAGE, count)
    {
      for i := 0 to count
        invariant Valid() && Used() == old(Used()) + Range(addr / PAGE, i)
      {
        PageNumber(addr, i);
        var ok := SetPageAsUsed(addr + i * PAGE);
        assert Range(addr / PAGE, i + 1) == Range(addr / PAGE, i) + {addr / PAGE + i};
      }
    }

    /** set_page_as_used; false is the panic on a page out of range. */
    method SetPageAsUsed(addr: nat) returns (ok: bool)
      requires Valid()
      modifies bitmap, bitmap.bytes
      ensures Valid() && ok == (addr / PAGE < Frames())
      ensures Used() == if ok then old(Used()) + {addr / PAGE} else old(Used())
    {
      var status := bitmap.SetBitValue(addr / PAGE, true);
      return status != -1;
    }

    /** set_page_as_unused; false is the panic on a page out of range. */
    method SetPageAsUnused(addr: nat) returns (ok: bool)
      requires Valid()
      modifies bitmap, bitmap.bytes
      ensures Valid() && ok == (addr / PAGE < Frames())
      ensures Used() == if ok then old(Used()) - {addr / PAGE} else old(Used())
    {
      var status := bitmap.SetBitValue(addr / PAGE, false);
      return status != -1;
    }

    method MarkRegionFree(e: MemEntry)
      requires Valid() && (e.base + e.length) / PAGE <= Frames()
      modifies bitmap, bitmap.bytes
      ensures Valid() && Used() == old(Used()) - EntryFrames(e)
      ensures EntryFrames(e) <= Range(0, Frames())
    {
      for i := 0 to e.length / PAGE
        invariant Valid() && Used() == old(Used()) - Range(e.base / PAGE, i)
      {
        PageNumber(e.base, i);
        var ok := SetPageAsUnused(e.base + i * PAGE);
        assert Range(e.base / PAGE, i + 1) == Range(e.base / PAGE, i) + {e.base / PAGE + i};
      }
    }

    /** pmm_alloc_page: the lowest free frame's address, or 0 (NULL) with nothing marked. */
    method AllocPage() returns (addr: nat)
      requires Valid()
      modifies bitmap, bitmap.bytes
      ensures Valid() && addr % PAGE == 0
      ensures old(Free()) == {} ==> addr == 0 && Used() == old(Used())
      ensures old(Free()) != {} ==>
                addr / PAGE in old(Free()) && (forall f: nat :: f in old(Free()) ==> addr / PAGE <= f) &&
                Used() == old(Used()) + {addr / PAGE}
    {
      for i := 0 to bitmap.bitCount
        invariant Valid() && Used() == old(Used())
        invariant forall f: nat :: f in Free() ==> i <= f
      {
        var value := bitmap.GetBitValue(i);
        if value == 0 {
          addr := i * PAGE;
          assert i in Free() && Free() == old(Free());
          var ok := SetPageAsUsed(addr);
          return;
        }
      }
      assert Free() == {} && Free() == old(Free());
      return 0;
    }

    /** How many frames are free. */
    method CountFree() returns (n: nat)
      requires Valid()
      ensures n == |Free()|
    {
      n := 0;
      ghost var seen: set<nat> := {};
      for i := 0 to bitmap.bitCount
        invariant n == |seen| && forall f: nat :: f in seen <==> f < i && f in Free()
      {
        var value := bitmap.GetBitValue(i);
        if value == 0 {
          n, seen := n + 1, seen + {i};
        }
      }
      assert seen == Free();
    }

    /** pmm_alloc_pages, in uint64_t arithmetic throughout. */
    method AllocPages(count: nat) returns (addr: nat)
      requires Valid() && 0 < count < TWO64
      modifies bitmap, bitmap.bytes
      ensures Valid()
      // When the request fits the bitmap: the lowest run, exactly it is marked, and failure means there is none.
      ensures count <= Frames() && !NoRun(old(Used()), Frames(), count) ==>
                addr % PAGE == 0 && LowestRun(old(Used()), Frames(), addr / PAGE, count) &&
                Used() == old(Used()) + Range(addr / PAGE, count)
      ensures count <= Frames() && NoRun(old(Used()), Frames(), count) ==> addr == 0 && Used() == old(Used())
      // When it does not: the bound of the search wraps, and a run past the end of the address space is "found".
      ensures count > Frames() ==> Used() == old(Used()) && Wild(addr, count)
      ensures count > Frames() && count + Frames() < TWO64 ==> addr == (TWO64 - count) * PAGE % TWO64
    {
      var found, i := FindRun(count);
      if !found {
        return 0;
      }
      MarkRun(i, Add64(i, count));
      addr := i * PAGE % TWO64;
    }

    /** The two nested search loops of pmm_alloc_pages, before any page is marked. */
    method FindRun(count: nat) returns (found: bool, i: nat)
      requires Valid() && 0 < count < TWO64
      ensures count <= Frames() ==>
                if found then LowestRun(Used(), Frames(), i, count) else NoRun(Used(), Frames(), count)
      ensures count > Frames() ==> found && i < TWO64 <= i + count && i <= Max(Frames() + 1, TWO64 - count)
    {
      var limit := Sub64(bitmap.bitCount, count);
      i := 0;
      while i <= limit
        invariant i < TWO64
        invariant forall k: nat :: k < i ==> !FreeRun(Used(), Frames(), k, count)
        invariant count > Frames() ==> i <= Max(Frames() + 1, TWO64 - count)
        decreases TWO64 - i
      {
        var end := Add64(i, count);
        var j := FirstUsed(i, end);
        if j >= end {
          return true, i;
        }
        UsedFrameBlocksRuns(Used(), Frames(), i, j, count);
        i := Add64(j, 1);
      }
      return false, i;
    }

    /** The inner search: the first page at or after i, and before end, that does not read as free; else end or i. */
    method FirstUsed(i: nat, end: nat) returns (j: nat)
      requires Valid()
      ensures i <= j && (j <= end || j == i)
      ensures forall k: nat :: i <= k < j ==> k !in Used() && k < Frames()
      ensures j < end ==> j in Used() || j >= Frames()
      ensures j <= Max(i, Frames())
    {
      j := i;
      while j < end
        invariant i <= j && (j <= end || j == i)
        invariant forall k: nat :: i <= k < j ==> k !in Used() && k < Frames()
        invariant j <= Max(i, Frames())
      {
        var value := bitmap.GetBitValue(j);
        if value != 0 {
          return;
        }
        j := j + 1;
      }
    }

    /** The marking loop: pages i, i + 1, ... below end. */
    method MarkRun(i: nat, end: nat)
      requires Valid() && (i < end ==> end <= Frames())
      modifies bitmap, bitmap.bytes
      ensures Valid() && Used() == old(Used()) + if i < end then Range(i, end - i) else {}
    {
      var j := i;
      while j < end
        invariant i <= j && (j <= end || j == i)
        invariant Valid() && Used() == old(Used()) + Range(i, j - i)
      {
        var ok := SetPageAsUsed(j * PAGE);
        assert Range(i, j + 1 - i) == Range(i, j - i) + {j};
        j := j + 1;
      }
    }

    /** pmm_free_page; false is the panic on a page out of range. */
    method FreePage(addr: nat) returns (ok: bool)
      requires Valid()
      modifies bitmap, bitmap.bytes
      ensures Valid() && ok == (addr / PAGE < Frames())
      ensures Used() == if ok then old(Used()) - {addr / PAGE} else old(Used())
    {
      ok := SetPageAsUnused(addr);
    }

    /** pmm_free_pages; it panics exactly if it comes to a page out of range, having freed those before it. */
    method FreePages(addr: nat, count: nat) returns (ok: bool)
      requires Valid()
      modifies bitmap, bitmap.bytes
      ensures Valid() && (ok <==> count == 0 || addr / PAGE + count <= Frames())
      ensures Used() == old(Used()) - Range(addr / PAGE, count)
    {
      for i := 0 to count
        invariant Valid() && Used() == old(Used()) - Range(addr / PAGE, i) && (i == 0 || addr / PAGE + i <= Frames())
      {
        PageNumber(addr, i);
        ok := SetPageAsUnused(addr + i * PAGE);
        assert Range(addr / PAGE, i + 1) == Range(addr / PAGE, i) + {addr / PAGE + i};
        if !ok {
          assert Used() <= Range(0, Frames());
          return;
        }
      }
      return true;
    }
  }

  lemma RoundedPages(e: MemEntry, pages: nat, bytes: nat)
    requires pages == DivRoundUp(bytes, PAGE) && bytes <= e.length && e.base % PAGE == 0 && e.length % PAGE == 0
    ensures e.base / PAGE + pages <= (e.base + e.length) / PAGE
  {
  }

  lemma PageNumber(addr: nat, i: nat)
    ensures (addr + i * PAGE) / PAGE == addr / PAGE + i
  {
  }

  /** init_pmm as a whole; null is the panic for want of a region that can hold the bitmap. */
  method InitPmm(entries: seq<MemEntry>) returns (pmm: PhysicalMemory?, ghost top: nat, ghost region: nat)
    requires BootMap(entries)
    requires forall i :: 0 <= i < |entries| ==> entries[i].base + entries[i].length < 0x10_0000_0000_0000
    ensures pmm == null <==>
              forall i :: 0 <= i < |entries| && entries[i].kind == Usable ==> entries[i].length * 8 < top / PAGE
    ensures pmm != null ==>
              && fresh(pmm) && pmm.Valid() && pmm.Frames() == top / PAGE && region < |entries| && entries[region].kind == Usable
              && pmm.bitmap.bytes.Length <= entries[region].length
              && FreeAtBoot(entries, entries[region].base, pmm.bitmap.bytes.Length, pmm.Free())
    // `top` is the end of RAM.
    ensures forall i :: 0 <= i < |entries| && CountsAsRam(entries[i].kind) ==> entries[i].base + entries[i].length <= top
    ensures top == 0 || exists i :: 0 <= i < |entries| && CountsAsRam(entries[i].kind) && entries[i].base + entries[i].length == top
  {
    hide FreeAtBoot;
    var ramSize := RamMaxSize(entries);
    var index := BitmapRegion(entries, ramSize);
    top, region := ramSize, 0;
    if index == -1 {
      return null, top, 0;
    }
    region := index;
    pmm := new PhysicalMemory(entries, ramSize, index);
  }

  /** An address whose page number plus `count` runs past 2^64: no such run of frames exists. */
  ghost predicate Wild(addr: nat, count: nat) {
    exists i: nat :: i < TWO64 <= i + count && addr == i * PAGE % TWO64
  }
}
