/** Physical memory addressed byte by byte, as memcpy and memset see it through the direct map. */
module PhysBytes {
  import opened Machine
  import opened PageTables

  function Bits(b: bool, weight: nat): nat {
    if b then weight else 0
  }

  /** union page_table_entry as a number, bit 0 first. */
  function Raw(e: Entry): nat {
    var f := e.flags;
    Bits(f.present, 1) + Bits(f.writable, 2) + Bits(f.user, 4) + Bits(f.writeThrough, 8) +
    Bits(f.cacheDisable, 16) + Bits(f.accessed, 32) + Bits(f.dirty, 64) + Bits(f.huge, 128) + Bits(f.global, 256) +
    f.reserved * 512 + e.index * 0x1000 + f.avl2 * 0x10_0000_0000_0000 + f.pk * 0x800_0000_0000_0000 +
    Bits(f.xd, 0x8000_0000_0000_0000)
  }

  function NthByte(n: nat, k: nat): byte
    decreases k
  {
    if k == 0 then n % 256 else NthByte(n / 256, k - 1)
  }

  /** What a frame holds, as bytes. */
  function FrameBytes(f: Frame): PageData {
    match f
    case Page(bytes) => bytes
    case Table(entries) => seq(PAGE, i requires 0 <= i < PAGE => if i / 8 < |entries| then NthByte(Raw(entries[i / 8]), i % 8) else 0)
  }

  function PageOf(addr: nat): nat {
    addr / PAGE
  }

  function OffsetIn(addr: nat): (k: nat)
    ensures k < PAGE
  {
    addr % PAGE
  }

  lemma SamePlaceInMemory(a: nat, b: nat)
    ensures a == b <==> PageOf(a) == PageOf(b) && OffsetIn(a) == OffsetIn(b)
  {
  }

  /** The byte at a physical address. */
  ghost function ByteAt(mem: Memory, addr: nat): byte
    requires PageOf(addr) in mem
  {
    FrameBytes(mem[PageOf(addr)])[OffsetIn(addr)]
  }

  /** Every address of the range lies in a frame that exists. */
  ghost predicate Backed(mem: Memory, addr: nat, count: nat) {
    forall a: nat :: addr <= a < addr + count ==> PageOf(a) in mem
  }

  /** Memory after storing one byte. */
  function Stored(mem: Memory, addr: nat, b: byte): (mem': Memory)
    requires PageOf(addr) in mem
  {
    mem[PageOf(addr) := Page(FrameBytes(mem[PageOf(addr)])[OffsetIn(addr) := b])]
  }

  /** Frame f holds an address of the range. */
  ghost predicate Touched(addr: nat, count: nat, f: nat) {
    exists a: nat :: addr <= a < addr + count && PageOf(a) == f
  }

  /** mem' holds `data` from addr on and is otherwise, byte for byte, mem; the frames written are pages of data now. */
  ghost predicate Copied(mem: Memory, mem': Memory, addr: nat, data: seq<byte>) {
    && mem'.Keys == mem.Keys && Backed(mem, addr, |data|)
    && (forall a: nat {:trigger ByteAt(mem', a)} :: PageOf(a) in mem ==>
          ByteAt(mem', a) == if addr <= a < addr + |data| then data[a - addr] else ByteAt(mem, a))
    && (forall f :: f in mem ==> if Touched(addr, |data|, f) then mem'[f].Page? else mem'[f] == mem[f])
  }

  lemma StoredByte(mem: Memory, at: nat, b: byte, a: nat)
    requires PageOf(at) in mem && PageOf(a) in mem
    ensures ByteAt(Stored(mem, at, b), a) == if a == at then b else ByteAt(mem, a)
  {
    SamePlaceInMemory(a, at);
  }

  lemma CopiedSnoc(mem: Memory, mem': Memory, addr: nat, data: seq<byte>, b: byte)
    requires Copied(mem, mem', addr, data) && PageOf(addr + |data|) in mem
    ensures Copied(mem, Stored(mem', addr + |data|, b), addr, data + [b])
  {
    hide FrameBytes, PageOf, OffsetIn;
    var at, n := addr + |data|, |data|;
    var mem'' := Stored(mem', at, b);
    forall a: nat | PageOf(a) in mem
      ensures ByteAt(mem'', a) == if addr <= a < addr + n + 1 then (data + [b])[a - addr] else ByteAt(mem, a)
    {
      StoredByte(mem', at, b, a);
      assert ByteAt(mem', a) == if addr <= a < addr + n then data[a - addr] else ByteAt(mem, a);
    }
    forall f | f in mem ensures if Touched(addr, n + 1, f) then mem''[f].Page? else mem''[f] == mem[f] {
      TouchedSnoc(addr, n, f);
    }
  }

  lemma TouchedSnoc(addr: nat, n: nat, f: nat)
    ensures Touched(addr, n + 1, f) <==> Touched(addr, n, f) || PageOf(addr + n) == f
  {
  }

  lemma CopiedNothing(mem: Memory, addr: nat)
    ensures Copied(mem, mem, addr, [])
  {
  }

  /** Two copies back to back are one. */
  lemma CopiedTwice(mem: Memory, mem1: Memory, mem2: Memory, addr: nat, d1: seq<byte>, d2: seq<byte>)
    requires Copied(mem, mem1, addr, d1) && Copied(mem1, mem2, addr + |d1|, d2)
    ensures Copied(mem, mem2, addr, d1 + d2)
  {
    hide FrameBytes, PageOf, OffsetIn, ByteAt;
    var d, n := d1 + d2, |d1| + |d2|;
    forall a: nat | PageOf(a) in mem
      ensures ByteAt(mem2, a) == if addr <= a < addr + n then d[a - addr] else ByteAt(mem, a)
    {
      assert ByteAt(mem1, a) == if addr <= a < addr + |d1| then d1[a - addr] else ByteAt(mem, a);
    }
    forall f | f in mem ensures if Touched(addr, n, f) then mem2[f].Page? else mem2[f] == mem[f] {
      TouchedJoin(addr, |d1|, |d2|, f);
    }
  }

  lemma TouchedJoin(addr: nat, m: nat, n: nat, f: nat)
    ensures Touched(addr, m + n, f) <==> Touched(addr, m, f) || Touched(addr + m, n, f)
  {
  }
}
