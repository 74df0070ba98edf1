/** kernel/elf_loader/elf_loader.c: mapping PT_LOAD segments (chapter 5 of the System V gABI) and filling them. */
module Loader {
  import opened Machine
  import opened PageTables
  import opened CloneSpec
  import opened WalkSpec
  import opened Translation
  import opened Costs
  import opened PhysBytes
  import opened Pmm
  import opened Vmm
  import V = Vfs

  /** The fields of Elf64_Phdr the loader reads; `load` is p_type == PT_LOAD. */
  datatype Segment = Segment(load: bool, offset: nat, vaddr: nat, filesz: nat, memsz: nat)

  /** What chapter 5 of the gABI asks of a PT_LOAD header, for a file of `size` bytes and the lower half. */
  ghost predicate WellFormed(s: Segment, f: V.File) {
    && s.filesz <= s.memsz && s.vaddr + s.memsz <= LOWER_PAGES * PAGE
    && f.backing.Regular? && f.size < TWO64 / 2 && s.offset + s.filesz <= f.size && f.size <= |f.backing.data|
  }

  /** get_elf_segment_pages_count */
  function PageCount(s: Segment): nat {
    (s.vaddr + s.memsz + PAGE - 1) / PAGE - s.vaddr / PAGE
  }

  function FirstPage(s: Segment): nat {
    s.vaddr / PAGE
  }

  /** Every byte of the segment lies on one of its pages, and every page below the segment's end is one of them. */
  lemma PagesCoverSegment(s: Segment, k: nat)
    requires k < s.memsz
    ensures FirstPage(s) <= (s.vaddr + k) / PAGE < FirstPage(s) + PageCount(s)
    ensures ((s.vaddr + k) / PAGE - FirstPage(s)) * PAGE + (s.vaddr + k) % PAGE == s.vaddr % PAGE + k
  {
  }

  /** Reading one byte through a pagemap. */
  ghost function ReadVirtual(mem: Memory, tree: Node, vaddr: nat): Option<byte> {
    var page := vaddr / PAGE;
    if page in Space(tree) && Space(tree)[page].index in mem
    then Some(FrameBytes(mem[Space(tree)[page].index])[vaddr % PAGE])
    else None
  }

  /** Reading one byte as user code does, by the processor's walk from the root table. */
  ghost function UserRead(mem: Memory, root: nat, vaddr: nat): Option<byte> {
    match Processor(mem, root, vaddr)
    case PageFault => None
    case Reach(frame, _, user) => if user && frame in mem then Some(FrameBytes(mem[frame])[vaddr % 0x1000]) else None
  }

  /** In a well-formed pagemap the two ways of reading agree on every user page. */
  lemma UserReads(mem: Memory, used: set<nat>, tree: Node, vaddr: nat)
    requires TreeOk(mem, used, tree) && vaddr < LOWER_PAGES * PAGE
    requires vaddr / PAGE in Space(tree) ==> Space(tree)[vaddr / PAGE].flags.user
    ensures UserRead(mem, tree.frame, vaddr) == ReadVirtual(mem, tree, vaddr)
  {
    SpaceIsTranslation(mem, used, tree, vaddr);
  }

  /** The byte the segment promises at offset k. */
  ghost function SegmentByte(s: Segment, data: seq<byte>, k: nat): byte
    requires s.offset + s.filesz <= |data|
  {
    if k < s.filesz then data[s.offset + k] else 0
  }

  /** The page is mapped to a page of data in use. */
  ghost predicate DataPage(mem: Memory, used: set<nat>, tree: Node, page: nat) {
    && page in Space(tree) && Space(tree)[page].index in used
    && Space(tree)[page].index in mem && mem[Space(tree)[page].index].Page?
  }

  /** Byte k of the segment can be read back, from a page of data in use. */
  ghost predicate ByteLoaded(mem: Memory, used: set<nat>, tree: Node, s: Segment, data: seq<byte>, k: nat)
    requires s.offset + s.filesz <= |data|
  {
    && DataPage(mem, used, tree, (s.vaddr + k) / PAGE)
    && ReadVirtual(mem, tree, s.vaddr + k) == Some(SegmentByte(s, data, k))
  }

  ghost predicate SegmentLoaded(mem: Memory, used: set<nat>, tree: Node, s: Segment, data: seq<byte>) {
    s.offset + s.filesz <= |data| && forall k: nat :: k < s.memsz ==> ByteLoaded(mem, used, tree, s, data, k)
  }

  /** Pages already mapped keep their translation. */
  ghost predicate Extends(tree: Node, tree': Node) {
    forall p :: p in Space(tree) ==> p in Space(tree') && Space(tree')[p] == Space(tree)[p]
  }

  lemma SegmentKept(mem: Memory, mem': Memory, used: set<nat>, used': set<nat>, tree: Node, tree': Node, s: Segment,
                    data: seq<byte>)
    requires SegmentLoaded(mem, used, tree, s, data) && used <= used'
    requires forall p: nat :: FirstPage(s) <= p < FirstPage(s) + PageCount(s) ==> Kept(tree, tree', p)
    requires PagesKept(mem, mem', used)
    ensures SegmentLoaded(mem', used', tree', s, data)
  {
    hide Space;
    forall k: nat | k < s.memsz ensures ByteLoaded(mem', used', tree', s, data, k) {
      PagesCoverSegment(s, k);
      assert ByteLoaded(mem, used, tree, s, data, k) && Kept(tree, tree', (s.vaddr + k) / PAGE);
    }
  }

  /** If the page is mapped, its translation is the same in both trees. */
  ghost predicate Kept(tree: Node, tree': Node, page: nat) {
    page in Space(tree) ==> page in Space(tree') && Space(tree')[page] == Space(tree)[page]
  }

  /** memcpy into physical memory. */
  method Memcpy(vm: AddressSpaces, addr: nat, data: seq<byte>)
    requires Backed(vm.mem, addr, |data|)
    modifies vm`mem
    ensures Copied(old(vm.mem), vm.mem, addr, data)
  {
    hide Copied, FrameBytes, PageOf, OffsetIn;
    ghost var mem0 := vm.mem;
    CopiedNothing(mem0, addr);
    assert data[..0] == [];
    for k := 0 to |data|
      invariant Copied(mem0, vm.mem, addr, data[..k]) && vm.mem.Keys == mem0.Keys
    {
      CopiedSnoc(mem0, vm.mem, addr, data[..k], data[k]);
      assert data[..k] + [data[k]] == data[..k + 1];
      vm.mem := Stored(vm.mem, addr + k, data[k]);
    }
    assert data[..|data|] == data;
  }

  // ---- Mapping a run of frames to consecutive pages.

  const USER_PAGE := LeafFlags(true, true)

  /** The translations of a run of pages on consecutive frames. */
  ghost function Run(first: nat, phys: nat, n: nat): map<nat, Entry> {
    map p: nat | first <= p < first + n && Within(p, first, n) :: Entry(USER_PAGE, phys + p - first)
  }

  /** Pages first .. first + n - 1, unmapped before, now lead to frames phys .. phys + n - 1, and no other page moved. */
  ghost predicate RunMapped(mem: Memory, mem': Memory, used: set<nat>, used': set<nat>, tree: Node, tree': Node,
                            first: nat, phys: nat, n: nat) {
    && Space(tree).Keys !! Range(first, n) && Space(tree') == Space(tree) + Run(first, phys, n)
    && used <= used' && Frames(tree') == Frames(tree) + (used' - used) + Range(phys, n)
    && OnlyIn(mem, mem', Frames(tree) + (used' - used) + Range(phys, n)) && PagesKept(mem, mem', used)
    && Covered(tree, tree', first, first + n)
  }

  lemma RunExtended(space: map<nat, Entry>, space1: map<nat, Entry>, space': map<nat, Entry>,
                    first: nat, phys: nat, n: nat)
    requires space.Keys !! Range(first, n) && space1 == space + Run(first, phys, n) && first + n !in space1
    requires space' == space1[first + n := Entry(USER_PAGE, phys + n)]
    ensures space.Keys !! Range(first, n + 1) && space' == space + Run(first, phys, n + 1)
  {
    assert Run(first, phys, n + 1) == Run(first, phys, n)[first + n := Entry(USER_PAGE, phys + n)];
  }

  lemma RunMappedSnoc(mem: Memory, mem1: Memory, mem': Memory, used: set<nat>, used1: set<nat>, used': set<nat>,
                      tree: Node, tree1: Node, tree': Node, first: nat, phys: nat, n: nat)
    requires RunMapped(mem, mem1, used, used1, tree, tree1, first, phys, n)
    requires first + n !in Space(tree1) && first + n < LOWER_PAGES
    requires MappedOne(mem1, mem', used1, used', tree1, tree', first + n, Entry(USER_PAGE, phys + n))
    ensures RunMapped(mem, mem', used, used', tree, tree', first, phys, n + 1)
  {
    hide Space, Frames, Covered, TablesAdded;
    CoveredSnoc(tree, tree1, tree', first, first + n);
    RunExtended(Space(tree), Space(tree1), Space(tree'), first, phys, n);
    assert Range(phys, n + 1) == Range(phys, n) + {phys + n};
    OnlyInTrans(mem, mem1, mem', Frames(tree) + (used1 - used) + Range(phys, n), Frames(tree1) + (used' - used1),
                Frames(tree) + (used' - used) + Range(phys, n + 1));
  }

  /** The frames of the run belong to no pagemap. */
  ghost predicate Unclaimed(trees: map<nat, Node>, phys: nat, n: nat) {
    forall r :: r in trees ==> Range(phys, n) !! Frames(trees[r])
  }

  lemma StillUnclaimed(mem: Memory, mem': Memory, used: set<nat>, used': set<nat>, trees: map<nat, Node>, root: nat,
                       tree': Node, first: nat, phys: nat, n: nat, i: nat)
    requires root in trees && i < n && Unclaimed(trees, phys, n) && Range(phys, n) <= used
    requires RunMapped(mem, mem', used, used', trees[root], tree', first, phys, i)
    ensures forall r :: r in With(trees, root, tree') ==> phys + i !in Frames(With(trees, root, tree')[r])
    ensures phys + i in used
  {
    assert phys + i in Range(phys, n);
    forall r | r in trees ensures phys + i !in Frames(trees[r]) {
    }
  }

  /** The mapping loop of load_segment. false is the kernel's panic: an overlapping segment, or no memory for a table. */
  method MapRun(vm: AddressSpaces, root: nat, first: nat, phys: nat, n: nat) returns (ok: bool)
    requires vm.Valid() && root in vm.trees && first + n <= LOWER_PAGES
    requires Range(phys, n) <= vm.pmm.Used() && phys > 0 && Unclaimed(vm.trees, phys, n)
    modifies vm`mem, vm`trees, vm.pmm.bitmap, vm.pmm.bitmap.bytes
    ensures ok ==> vm.Valid() && root in vm.trees && vm.trees == With(old(vm.trees), root, vm.trees[root])
    ensures ok ==> RunMapped(old(vm.mem), vm.mem, old(vm.pmm.Used()), vm.pmm.Used(), old(vm.trees)[root], vm.trees[root],
                             first, phys, n)
    ensures ok <==> && Space(old(vm.trees)[root]).Keys !! Range(first, n)
                    && TablesOver(old(vm.trees)[root], first, first + n) <= |old(vm.pmm.Free())|
    ensures ok ==> |vm.pmm.Free()| == |old(vm.pmm.Free())| - TablesOver(old(vm.trees)[root], first, first + n)
  {
    hide RunMapped, Space, Separate, Range, Unclaimed, TablesOver;
    ghost var mem0, used0, trees0, free0 := vm.mem, vm.pmm.Used(), vm.trees, |vm.pmm.Free()|;
    assert trees0 == With(trees0, root, trees0[root]);
    RunMappedNothing(mem0, used0, trees0[root], first, phys);
    NoTables(trees0[root], first);
    for i := 0 to n
      invariant MappingRun(vm, root, first, phys, i, mem0, used0, trees0) && used0 <= vm.pmm.Used()
      invariant |vm.pmm.Free()| == free0 - TablesOver(trees0[root], first, first + i)
    {
      var mapped := MapNext(vm, root, first, phys, n, i, mem0, used0, trees0);
      OneMorePage(trees0[root], first, first + i);
      if !mapped {
        CostGrows(trees0[root], first, first + i + 1, first + n);
        return false;
      }
    }
    RunWasFree(mem0, vm.mem, used0, vm.pmm.Used(), trees0[root], vm.trees[root], first, phys, n);
    ok := true;
  }

  lemma NoTables(tree: Node, lo: nat)
    ensures TablesOver(tree, lo, lo) == 0
  {
  }

  lemma OneMorePage(tree: Node, lo: nat, p: nat)
    requires lo <= p
    ensures TablesOver(tree, lo, p + 1) == TablesOver(tree, lo, p) + NewTables(tree, lo, p)
  {
  }

  lemma RunWasFree(mem: Memory, mem': Memory, used: set<nat>, used': set<nat>, tree: Node, tree': Node, first: nat,
                   phys: nat, n: nat)
    requires RunMapped(mem, mem', used, used', tree, tree', first, phys, n)
    ensures Space(tree).Keys !! Range(first, n)
  {
  }

  lemma RunMappedNothing(mem: Memory, used: set<nat>, tree: Node, first: nat, phys: nat)
    ensures RunMapped(mem, mem, used, used, tree, tree, first, phys, 0)
  {
    hide Space, Covered;
    CoveredNothing(tree, first);
    assert Space(tree) + Run(first, phys, 0) == Space(tree);
  }

  /** A page refused in mid-run was mapped before the run began. */
  lemma RefusedWasMapped(mem: Memory, mem': Memory, used: set<nat>, used': set<nat>, tree: Node, tree': Node,
                         first: nat, phys: nat, i: nat, n: nat)
    requires i < n && RunMapped(mem, mem', used, used', tree, tree', first, phys, i) && first + i in Space(tree')
    ensures !(Space(tree).Keys !! Range(first, n))
  {
    hide Space;
    assert first + i in Space(tree).Keys && first + i in Range(first, n);
  }

  ghost predicate MappingRun(vm: AddressSpaces, root: nat, first: nat, phys: nat, i: nat,
                             mem0: Memory, used0: set<nat>, trees0: map<nat, Node>)
    reads vm, vm.pmm.bitmap, vm.pmm.bitmap.bytes
  {
    && vm.Valid() && root in trees0 && root in vm.trees && vm.trees == With(trees0, root, vm.trees[root])
    && RunMapped(mem0, vm.mem, used0, vm.pmm.Used(), trees0[root], vm.trees[root], first, phys, i)
  }

  method MapNext(vm: AddressSpaces, root: nat, first: nat, phys: nat, n: nat, i: nat,
                 ghost mem0: Memory, ghost used0: set<nat>, ghost trees0: map<nat, Node>) returns (ok: bool)
    requires MappingRun(vm, root, first, phys, i, mem0, used0, trees0) && i < n && first + n <= LOWER_PAGES
    requires Range(phys, n) <= used0 <= vm.pmm.Used() && phys > 0 && Unclaimed(trees0, phys, n)
    modifies vm`mem, vm`trees, vm.pmm.bitmap, vm.pmm.bitmap.bytes
    ensures ok ==> used0 <= vm.pmm.Used()
    ensures ok ==> |vm.pmm.Free()| == |old(vm.pmm.Free())| - NewTables(trees0[root], first, first + i)
    ensures !ok ==> || !(Space(trees0[root]).Keys !! Range(first, n))
                    || |old(vm.pmm.Free())| < NewTables(trees0[root], first, first + i)
    ensures ok ==> MappingRun(vm, root, first, phys, i + 1, mem0, used0, trees0)
  {
    hide Separate, Space, RunMapped, MappedOne, Frames, Unclaimed, Missing, Range, NewTables;
    ghost var mem1, used1, tree1 := vm.mem, vm.pmm.Used(), vm.trees[root];
    StillUnclaimed(mem0, mem1, used0, used1, trees0, root, tree1, first, phys, n, i);
    var page := first + i;
    RunMissing(mem0, mem1, used0, used1, trees0[root], tree1, first, phys, i);
    var result := vm.MapPage(root, page, phys + i, false, true, true);
    assert result == Mapped ==> page !in Space(tree1);
    if result != Mapped {
      if result == Refused {
        RefusedWasMapped(mem0, mem1, used0, used1, trees0[root], tree1, first, phys, i, n);
      }
      return false;
    }
    WithTwice(trees0, root, tree1, vm.trees[root]);
    RunMappedSnoc(mem0, mem1, vm.mem, used0, used1, vm.pmm.Used(), trees0[root], tree1, vm.trees[root], first, phys, i);
    ok := true;
  }

  lemma RunMissing(mem: Memory, mem': Memory, used: set<nat>, used': set<nat>, tree: Node, tree': Node, first: nat,
                   phys: nat, i: nat)
    requires RunMapped(mem, mem', used, used', tree, tree', first, phys, i) && first + i < LOWER_PAGES
    ensures Missing(tree', PathOf(first + i)) == NewTables(tree, first, first + i)
  {
    hide Covered;
    MissingNow(tree, tree', first, first + i);
  }

  // ---- Loading one segment.

  datatype LoadResult = Loaded | Halted | NoMemory

  ghost function FileBytes(s: Segment, data: seq<byte>): seq<byte>
    requires s.offset + s.filesz <= |data|
  {
    data[s.offset..s.offset + s.filesz]
  }

  function Zeros(n: nat): (z: seq<byte>)
    ensures |z| == n && forall i :: 0 <= i < n ==> z[i] == 0
  {
    seq(n, _ => 0)
  }

  /** More frames in use disturbs no pagemap. */
  lemma SeparateGrows(mem: Memory, used: set<nat>, used': set<nat>, trees: map<nat, Node>)
    requires Separate(mem, used, trees) && used <= used'
    ensures Separate(mem, used', trees)
  {
    forall r | r in trees ensures Pagemap(mem, used', r, trees[r]) {
      PagemapFrame(mem, mem, used, used', r, trees[r]);
    }
  }

  /** Frames that were free belong to no pagemap. */
  lemma FreshUnclaimed(mem: Memory, used: set<nat>, trees: map<nat, Node>, phys: nat, n: nat)
    requires Separate(mem, used, trees) && Range(phys, n) !! used
    ensures Unclaimed(trees, phys, n)
  {
    forall r | r in trees ensures Range(phys, n) !! Frames(trees[r]) {
      assert Pagemap(mem, used, r, trees[r]);
    }
  }

  /** Writing into the pages of a run disturbs no pagemap. */
  lemma DataWritten(mem: Memory, mem': Memory, used: set<nat>, trees: map<nat, Node>, root: nat, first: nat, phys: nat,
                    n: nat, addr: nat, data: seq<byte>)
    requires Separate(mem, used, trees) && root in trees && Copied(mem, mem', addr, data)
    requires forall p: nat :: first <= p < first + n ==> p in Space(trees[root]) && Space(trees[root])[p].index == phys + p - first
    requires phys * PAGE <= addr && addr + |data| <= (phys + n) * PAGE
    ensures Separate(mem', used, trees)
  {
    hide Space, Holds, Frames, Distinct, Live, ByteAt;
    forall f: nat | Touched(addr, |data|, f) ensures f in Frames(trees[root]) - Tables(trees[root]) {
      var a: nat :| addr <= a < addr + |data| && PageOf(a) == f;
      assert phys <= f < phys + n;
      assert Pagemap(mem, used, root, trees[root]);
      OwnFrames(mem, used, trees[root], first + f - phys);
    }
    forall r | r in trees ensures Pagemap(mem', used, r, trees[r]) {
      assert Pagemap(mem, used, r, trees[r]);
      TablesAreFrames(trees[r]);
      if r != root {
        assert Frames(trees[r]) !! Frames(trees[root]);
      }
      HoldsTables(mem, mem', trees[r], TOP_LEVEL);
    }
  }

  /** Byte k of a segment lies at byte k of its copy in the run of frames. */
  lemma WhereByteLies(s: Segment, phys: nat, k: nat)
    requires k < s.memsz
    ensures var a := phys * PAGE + s.vaddr % PAGE + k;
            PageOf(a) == phys + (s.vaddr + k) / PAGE - FirstPage(s) && OffsetIn(a) == (s.vaddr + k) % PAGE
  {
    PagesCoverSegment(s, k);
    var a := phys * PAGE + s.vaddr % PAGE + k;
    assert a == (phys + (s.vaddr + k) / PAGE - FirstPage(s)) * PAGE + (s.vaddr + k) % PAGE;
  }

  /** One byte of a copy, as it then lies in memory. */
  lemma CopiedByte(mem: Memory, mem': Memory, start: nat, bytes: seq<byte>, k: nat)
    requires Copied(mem, mem', start, bytes) && k < |bytes|
    ensures PageOf(start + k) in mem' && mem'[PageOf(start + k)].Page? && ByteAt(mem', start + k) == bytes[k]
  {
    hide FrameBytes, ByteAt;
    assert PageOf(start + k) in mem && Touched(start, |bytes|, PageOf(start + k));
  }

  /** A mapped run holding the segment's bytes makes the segment readable. */
  lemma RunHoldsSegment(mem: Memory, mem': Memory, used: set<nat>, tree: Node, s: Segment, data: seq<byte>, phys: nat)
    requires s.offset + s.filesz <= |data| && s.filesz <= s.memsz
    requires forall p: nat :: FirstPage(s) <= p < FirstPage(s) + PageCount(s) ==>
               p in Space(tree) && Space(tree)[p].index == phys + p - FirstPage(s) && phys + p - FirstPage(s) in used
    requires Copied(mem, mem', phys * PAGE + s.vaddr % PAGE, FileBytes(s, data) + Zeros(s.memsz - s.filesz))
    ensures SegmentLoaded(mem', used, tree, s, data)
  {
    hide Space, FrameBytes, PageOf, OffsetIn, FirstPage, PageCount, Copied;
    var start, bytes := phys * PAGE + s.vaddr % PAGE, FileBytes(s, data) + Zeros(s.memsz - s.filesz);
    forall k: nat | k < s.memsz ensures ByteLoaded(mem', used, tree, s, data, k) {
      PagesCoverSegment(s, k);
      WhereByteLies(s, phys, k);
      CopiedByte(mem, mem', start, bytes, k);
    }
  }

  /** pmm_alloc_pages for a segment. The model stops where the source would go on with an address that is no memory. */
  method AllocRun(vm: AddressSpaces, n: nat) returns (ok: bool, phys: nat)
    requires vm.Valid() && 0 < n < TWO64
    modifies vm.pmm.bitmap, vm.pmm.bitmap.bytes
    ensures ok ==> vm.Valid() && phys > 0 && Unclaimed(vm.trees, phys, n) && phys + n <= vm.pmm.Frames()
    ensures ok ==> Range(phys, n) !! old(vm.pmm.Used()) && vm.pmm.Used() == old(vm.pmm.Used()) + Range(phys, n)
    ensures ok ==> |vm.pmm.Free()| == |old(vm.pmm.Free())| - n
    ensures !ok <==> n > vm.pmm.Frames() || NoRun(old(vm.pmm.Used()), vm.pmm.Frames(), n)
    ensures !ok ==> vm.pmm.Used() == old(vm.pmm.Used())
  {
    hide Separate, Unclaimed, NoRun, LowestRun, Range;
    ghost var used0 := vm.pmm.Used();
    var addr := vm.pmm.AllocPages(n);
    NoRunAtZero(used0, vm.pmm.Frames(), n);
    if n > vm.pmm.bitmap.bitCount || addr == 0 {
      return false, 0;
    }
    phys := addr / PAGE;
    RunTaken(used0, vm.pmm.Used(), vm.pmm.Frames(), phys, n);
    SeparateGrows(vm.mem, used0, vm.pmm.Used(), vm.trees);
    FreshUnclaimed(vm.mem, used0, vm.trees, phys, n);
    ok := true;
  }

  /** What taking the lowest run does to the free frames. */
  lemma RunTaken(used: set<nat>, used': set<nat>, frames: nat, phys: nat, n: nat)
    requires LowestRun(used, frames, phys, n) && used' == used + Range(phys, n) && 0 in used && n > 0
    ensures phys > 0 && phys + n <= frames && Range(phys, n) !! used && !NoRun(used, frames, n)
    ensures |Range(0, frames) - used'| == |Range(0, frames) - used| - n
  {
    NoRunAtZero(used, frames, n);
    RangeSize(phys, n);
    var free := Range(0, frames) - used;
    assert Range(0, frames) - used' == free - Range(phys, n) && Range(phys, n) <= free;
  }

  lemma {:induction false} RangeSize(first: nat, n: nat)
    ensures |Range(first, n)| == n
  {
    if n == 0 {
      assert Range(first, n) == {};
    } else {
      RangeSize(first, n - 1);
      assert Range(first, n) == Range(first, n - 1) + {first + n - 1};
    }
  }

  /** The second half of load_segment: seek, read, and clear what the file does not provide. */
  method FillSegment(vm: AddressSpaces, s: Segment, f: V.File, phys: nat) returns (f': V.File)
    requires WellFormed(s, f) && f.position < TWO64
    requires Backed(vm.mem, phys * PAGE + s.vaddr % PAGE, s.memsz)
    modifies vm`mem
    ensures Copied(old(vm.mem), vm.mem, phys * PAGE + s.vaddr % PAGE,
                   FileBytes(s, f.backing.data) + Zeros(s.memsz - s.filesz))
    ensures f' == f.(position := s.offset + s.filesz)
  {
    hide Copied, FrameBytes, PageOf;
    ghost var mem0 := vm.mem;
    var start := phys * PAGE + s.vaddr % PAGE;
    f' := V.Seek(f, s.offset, V.Set).0;
    var count := V.Clip(f', s.filesz);
    Memcpy(vm, start, f'.backing.data[f'.position..f'.position + count]);
    f' := f'.(position := f'.position + count);
    ghost var mem1 := vm.mem;
    KeysKept(mem0, mem1, start, FileBytes(s, f.backing.data));
    if s.memsz > s.filesz {
      Memcpy(vm, start + s.filesz, Zeros(s.memsz - s.filesz));
    } else {
      CopiedNothing(mem1, start + s.filesz);
      assert Zeros(s.memsz - s.filesz) == [];
    }
    CopiedTwice(mem0, mem1, vm.mem, start, FileBytes(s, f.backing.data), Zeros(s.memsz - s.filesz));
  }

  lemma KeysKept(mem: Memory, mem': Memory, addr: nat, data: seq<byte>)
    requires Copied(mem, mem', addr, data)
    ensures mem'.Keys == mem.Keys
  {
  }

  /** The segment is readable, exactly its pages were added to the address space, no data in use was touched, and all
      frames taken belong to the pagemap. */
  ghost predicate LoadedOne(mem: Memory, mem': Memory, used: set<nat>, used': set<nat>, tree: Node, tree': Node,
                            s: Segment, data: seq<byte>) {
    && SegmentLoaded(mem', used', tree', s, data)
    && Space(tree).Keys !! Range(FirstPage(s), PageCount(s))
    && Space(tree').Keys == Space(tree).Keys + Range(FirstPage(s), PageCount(s))
    && (forall p :: p in Range(FirstPage(s), PageCount(s)) ==> p in Space(tree') && Space(tree')[p].flags == USER_PAGE)
    && Extends(tree, tree') && used <= used' && PagesKept(mem, mem', used)
    && Confined(mem, mem', used, used', tree, tree', {})
  }

  /** The run of frames lies within one page-aligned block that covers the segment. */
  lemma SegmentFits(s: Segment, phys: nat)
    ensures s.vaddr % PAGE + s.memsz <= PageCount(s) * PAGE
    ensures phys * PAGE + s.vaddr % PAGE + s.memsz <= (phys + PageCount(s)) * PAGE
  {
  }

  lemma SegmentInstalled(mem: Memory, mem1: Memory, mem': Memory, used: set<nat>, used1: set<nat>, used': set<nat>,
                         trees: map<nat, Node>, root: nat, s: Segment, data: seq<byte>, phys: nat, tree: Node)
    requires WellFormedSizes(s, data) && root in trees
    requires Range(phys, PageCount(s)) !! used && used1 == used + Range(phys, PageCount(s))
    requires RunMapped(mem, mem1, used1, used', tree, trees[root], FirstPage(s), phys, PageCount(s))
    requires Separate(mem1, used', trees)
    requires Copied(mem1, mem', phys * PAGE + s.vaddr % PAGE, FileBytes(s, data) + Zeros(s.memsz - s.filesz))
    ensures Separate(mem', used', trees)
    ensures LoadedOne(mem, mem', used, used', tree, trees[root], s, data)
  {
    hide Space, Frames, ByteAt, Separate, SegmentLoaded, FirstPage, PageCount, PageOf, Backed, Confined, Covered;
    var first, n, start := FirstPage(s), PageCount(s), phys * PAGE + s.vaddr % PAGE;
    var bytes := FileBytes(s, data) + Zeros(s.memsz - s.filesz);
    forall p: nat | first <= p < first + n
      ensures p in Space(trees[root]) && Space(trees[root])[p].index == phys + p - first && phys + p - first in used'
    {
      assert p in Run(first, phys, n) && phys + p - first in Range(phys, n);
    }
    SegmentFits(s, phys);
    RunHoldsSegment(mem1, mem', used', trees[root], s, data, phys);
    DataWritten(mem1, mem', used', trees, root, first, phys, n, start, bytes);
    assert Run(first, phys, n).Keys == Range(first, n);
    forall f: nat | Touched(start, |bytes|, f) ensures f !in used {
      TouchedInRun(start, |bytes|, phys, n, f);
    }
    RunConfined(mem, mem1, mem', used, used1, used', tree, trees[root], first, phys, n, start, bytes);
  }

  /** Mapping a run taken for it, and writing into the run, concerns one pagemap only. */
  lemma RunConfined(mem: Memory, mem1: Memory, mem': Memory, used: set<nat>, used1: set<nat>, used': set<nat>, tree: Node,
                    tree': Node, first: nat, phys: nat, n: nat, start: nat, bytes: seq<byte>)
    requires Range(phys, n) !! used && used1 == used + Range(phys, n)
    requires RunMapped(mem, mem1, used1, used', tree, tree', first, phys, n) && Copied(mem1, mem', start, bytes)
    requires phys * PAGE <= start && start + |bytes| <= (phys + n) * PAGE
    ensures Confined(mem, mem', used, used', tree, tree', {})
  {
    hide Space, Frames, ByteAt, PageOf, Backed;
    forall f: nat | Touched(start, |bytes|, f) ensures f in Range(phys, n) {
      TouchedInRun(start, |bytes|, phys, n, f);
    }
    OnlyInTrans(mem, mem1, mem', Frames(tree) + (used' - used1) + Range(phys, n), Range(phys, n),
                Frames(tree) + (used' - used));
  }

  lemma TouchedInRun(start: nat, count: nat, phys: nat, n: nat, f: nat)
    requires phys * PAGE <= start && start + count <= (phys + n) * PAGE && Touched(start, count, f)
    ensures f in Range(phys, n)
  {
    var a: nat :| start <= a < start + count && PageOf(a) == f;
  }

  ghost predicate WellFormedSizes(s: Segment, data: seq<byte>) {
    s.filesz <= s.memsz && s.offset + s.filesz <= |data|
  }

  /** No run of frames is free that could hold the segment. */
  ghost predicate NoRoom(pmm: PhysicalMemory, s: Segment)
    reads pmm.bitmap
  {
    PageCount(s) > pmm.Frames() || NoRun(pmm.Used(), pmm.Frames(), PageCount(s))
  }

  /** load_segment */
  method LoadSegment(vm: AddressSpaces, root: nat, s: Segment, f: V.File) returns (result: LoadResult, f': V.File)
    requires vm.Valid() && root in vm.trees && WellFormed(s, f) && f.position < TWO64
    modifies vm`mem, vm`trees, vm.pmm.bitmap, vm.pmm.bitmap.bytes
    ensures f'.position < TWO64 && f' == f.(position := f'.position)
    ensures result == Loaded ==>
              && vm.Valid() && root in vm.trees && vm.trees == With(old(vm.trees), root, vm.trees[root])
              && LoadedOne(old(vm.mem), vm.mem, old(vm.pmm.Used()), vm.pmm.Used(), old(vm.trees)[root], vm.trees[root],
                           s, f.backing.data)
              && |vm.pmm.Free()| == |old(vm.pmm.Free())| - Cost(old(vm.trees)[root], FirstPage(s), FirstPage(s) + PageCount(s))
    // Exactly when it succeeds, and when it finds no run of frames; otherwise it halts.
    ensures result == NoMemory <==> PageCount(s) > 0 && old(NoRoom(vm.pmm, s))
    ensures result == Loaded <==>
              && PageCount(s) > 0 && !old(NoRoom(vm.pmm, s))
              && Space(old(vm.trees)[root]).Keys !! Range(FirstPage(s), PageCount(s))
              && Cost(old(vm.trees)[root], FirstPage(s), FirstPage(s) + PageCount(s)) <= |old(vm.pmm.Free())|
    ensures result == NoMemory ==> NoRoom(vm.pmm, s)
  {
    hide RunMapped, LoadedOne, Space, Separate, Unclaimed, Range, Copied, PageOf, TablesOver;
    f' := f;
    var n := PageCount(s);
    if n == 0 {
      return Halted, f';
    }
    ghost var mem0, used0, tree0 := vm.mem, vm.pmm.Used(), vm.trees[root];
    var ok, phys := AllocRun(vm, n);
    if !ok {
      return NoMemory, f';
    }
    ghost var used1 := vm.pmm.Used();
    var mapped := MapRun(vm, root, FirstPage(s), phys, n);
    if !mapped {
      return Halted, f';
    }
    ghost var mem1 := vm.mem;
    RunBacked(vm.mem, vm.pmm.Frames(), s, phys);
    f' := FillSegment(vm, s, f, phys);
    SegmentInstalled(mem0, mem1, vm.mem, used0, used1, vm.pmm.Used(), vm.trees, root, s, f.backing.data, phys, tree0);
    KeysKept(mem1, vm.mem, phys * PAGE + s.vaddr % PAGE, FileBytes(s, f.backing.data) + Zeros(s.memsz - s.filesz));
    result := Loaded;
  }

  lemma RunBacked(mem: Memory, frames: nat, s: Segment, phys: nat)
    requires Range(0, frames) <= mem.Keys && phys + PageCount(s) <= frames
    ensures Backed(mem, phys * PAGE + s.vaddr % PAGE, s.memsz)
  {
    forall a: nat | phys * PAGE + s.vaddr % PAGE <= a < phys * PAGE + s.vaddr % PAGE + s.memsz ensures PageOf(a) in mem {
      SegmentFits(s, phys);
      assert PageOf(a) in Range(0, frames);
    }
  }

  // ---- Loading a whole program.

  /** The pages of the first n headers that are PT_LOAD. */
  ghost function AllPages(segs: seq<Segment>, n: nat): set<nat>
    requires n <= |segs|
  {
    if n == 0 then {}
    else AllPages(segs, n - 1) + if segs[n - 1].load then Range(FirstPage(segs[n - 1]), PageCount(segs[n - 1])) else {}
  }

  ghost function TotalPages(segs: seq<Segment>, n: nat): nat
    requires n <= |segs|
  {
    if n == 0 then 0 else TotalPages(segs, n - 1) + if segs[n - 1].load then PageCount(segs[n - 1]) else 0
  }

  lemma {:induction false} TotalGrows(segs: seq<Segment>, i: nat, n: nat)
    requires i <= n <= |segs|
    ensures TotalPages(segs, i) <= TotalPages(segs, n)
  {
    if i < n {
      TotalGrows(segs, i, n - 1);
    }
  }

  /** Segment i has pages, and they meet neither what was mapped before nor an earlier segment. */
  ghost predicate Disjoint(mapped: set<nat>, segs: seq<Segment>, i: nat)
    requires i < |segs|
  {
    segs[i].load ==> PageCount(segs[i]) > 0 && mapped + AllPages(segs, i) !! Range(FirstPage(segs[i]), PageCount(segs[i]))
  }

  /** The first n headers are loaded. */
  ghost predicate LoadedSoFar(mem: Memory, mem': Memory, used: set<nat>, used': set<nat>, tree: Node, tree': Node,
                              segs: seq<Segment>, data: seq<byte>, n: nat)
    requires n <= |segs|
  {
    && (forall i :: 0 <= i < n ==> Disjoint(Space(tree).Keys, segs, i))
    && (forall i :: 0 <= i < n && segs[i].load ==> SegmentLoaded(mem', used', tree', segs[i], data))
    && Space(tree').Keys == Space(tree).Keys + AllPages(segs, n)
    && (forall p :: p in AllPages(segs, n) ==> p in Space(tree') && Space(tree')[p].flags == USER_PAGE)
    && Extends(tree, tree') && used <= used' && PagesKept(mem, mem', used)
    && Confined(mem, mem', used, used', tree, tree', {})
  }

  lemma LoadedSnoc(mem: Memory, mem1: Memory, mem': Memory, used: set<nat>, used1: set<nat>, used': set<nat>,
                   tree: Node, tree1: Node, tree': Node, segs: seq<Segment>, data: seq<byte>, n: nat)
    requires n < |segs| && segs[n].load && PageCount(segs[n]) > 0 && Frames(tree) <= used
    requires LoadedSoFar(mem, mem1, used, used1, tree, tree1, segs, data, n)
    requires LoadedOne(mem1, mem', used1, used', tree1, tree', segs[n], data)
    ensures LoadedSoFar(mem, mem', used, used', tree, tree', segs, data, n + 1)
  {
    hide Space, SegmentLoaded, Confined, Frames;
    forall i | 0 <= i < n && segs[i].load ensures SegmentLoaded(mem', used', tree', segs[i], data) {
      SegmentKept(mem1, mem', used1, used', tree1, tree', segs[i], data);
    }
    var none: set<nat> := {};
    ConfinedTrans(mem, mem1, mem', used, used1, used', tree, tree1, tree', none, none);
    assert none + none == none;
  }

  /** load_binary_segments. Halted is the kernel's panic; it cannot happen to page-disjoint segments while enough
      frames are free, and it must happen when segments overlap. */
  method LoadBinarySegments(vm: AddressSpaces, root: nat, segs: seq<Segment>, f: V.File) returns (result: LoadResult)
    requires vm.Valid() && root in vm.trees && f.position < TWO64
    requires forall i :: 0 <= i < |segs| && segs[i].load ==> WellFormed(segs[i], f)
    modifies vm`mem, vm`trees, vm.pmm.bitmap, vm.pmm.bitmap.bytes
    ensures result == Loaded ==>
              && vm.Valid() && root in vm.trees && vm.trees == With(old(vm.trees), root, vm.trees[root])
              && LoadedSoFar(old(vm.mem), vm.mem, old(vm.pmm.Used()), vm.pmm.Used(), old(vm.trees)[root], vm.trees[root],
                             segs, if |segs| > 0 && f.backing.Regular? then f.backing.data else [], |segs|)
              && |vm.pmm.Free()| >= |old(vm.pmm.Free())| - 4 * TotalPages(segs, |segs|)
    ensures result == Halted ==>
              || (exists i :: 0 <= i < |segs| && !Disjoint(Space(old(vm.trees)[root]).Keys, segs, i))
              || |old(vm.pmm.Free())| < 4 * TotalPages(segs, |segs|)
    ensures result == NoMemory ==> exists i :: 0 <= i < |segs| && segs[i].load && NoRoom(vm.pmm, segs[i])
  {
    hide NoRoom, LoadedSoFar, LoadedOne, Space, Separate, Disjoint, Frames, Cost, FirstPage, PageCount;
    ghost var mem0, used0, trees0, free0 := vm.mem, vm.pmm.Used(), vm.trees, |vm.pmm.Free()|;
    ghost var data := if |segs| > 0 && f.backing.Regular? then f.backing.data else [];
    var file := f;
    assert trees0 == With(trees0, root, trees0[root]);
    LoadedNothing(mem0, used0, trees0[root], segs, data);
    FramesInUse(mem0, used0, trees0, root);
    for i := 0 to |segs|
      invariant vm.Valid() && root in vm.trees && vm.trees == With(trees0, root, vm.trees[root])
      invariant file.position < TWO64 && file == f.(position := file.position)
      invariant LoadedSoFar(mem0, vm.mem, used0, vm.pmm.Used(), trees0[root], vm.trees[root], segs, data, i)
      invariant |vm.pmm.Free()| >= free0 - 4 * TotalPages(segs, i)
    {
      if segs[i].load {
        ghost var mem1, used1, tree1 := vm.mem, vm.pmm.Used(), vm.trees[root];
        TotalGrows(segs, i + 1, |segs|);
        CostBound(tree1, FirstPage(segs[i]), PageCount(segs[i]));
        result, file := LoadSegment(vm, root, segs[i], file);
        if result != Loaded {
          OverlapShows(mem0, mem1, used0, used1, trees0[root], tree1, segs, data, i);
          return;
        }
        WithTwice(trees0, root, tree1, vm.trees[root]);
        LoadedSnoc(mem0, mem1, vm.mem, used0, used1, vm.pmm.Used(), trees0[root], tree1, vm.trees[root], segs, data, i);
      } else {
        LoadedSkip(mem0, vm.mem, used0, vm.pmm.Used(), trees0[root], vm.trees[root], segs, data, i);
      }
    }
    result := Loaded;
  }

  lemma LoadedNothing(mem: Memory, used: set<nat>, tree: Node, segs: seq<Segment>, data: seq<byte>)
    ensures LoadedSoFar(mem, mem, used, used, tree, tree, segs, data, 0)
  {
    hide Space;
  }

  lemma LoadedSkip(mem: Memory, mem': Memory, used: set<nat>, used': set<nat>, tree: Node, tree': Node,
                   segs: seq<Segment>, data: seq<byte>, n: nat)
    requires n < |segs| && !segs[n].load && LoadedSoFar(mem, mem', used, used', tree, tree', segs, data, n)
    ensures LoadedSoFar(mem, mem', used, used', tree, tree', segs, data, n + 1)
  {
    hide Space, SegmentLoaded;
  }

  lemma OverlapShows(mem: Memory, mem': Memory, used: set<nat>, used': set<nat>, tree: Node, tree': Node,
                     segs: seq<Segment>, data: seq<byte>, i: nat)
    requires i < |segs| && segs[i].load && LoadedSoFar(mem, mem', used, used', tree, tree', segs, data, i)
    ensures Disjoint(Space(tree).Keys, segs, i) <==>
            PageCount(segs[i]) > 0 && Space(tree').Keys !! Range(FirstPage(segs[i]), PageCount(segs[i]))
  {
    hide Space, SegmentLoaded;
  }

  /** After a load the program itself reads every byte of its segments. */
  lemma SegmentsReadable(mem: Memory, mem': Memory, used: set<nat>, used': set<nat>, tree: Node, tree': Node,
                         segs: seq<Segment>, data: seq<byte>, i: nat, k: nat)
    requires LoadedSoFar(mem, mem', used, used', tree, tree', segs, data, |segs|) && TreeOk(mem', used', tree')
    requires i < |segs| && segs[i].load && k < segs[i].memsz && segs[i].vaddr + segs[i].memsz <= LOWER_PAGES * PAGE
    requires segs[i].offset + segs[i].filesz <= |data|
    ensures UserRead(mem', tree'.frame, segs[i].vaddr + k) == Some(SegmentByte(segs[i], data, k))
  {
    hide Space, TreeOk, UserRead;
    assert ByteLoaded(mem', used', tree', segs[i], data, k);
    PagesCoverSegment(segs[i], k);
    PageAmongAll(segs, i, (segs[i].vaddr + k) / PAGE, |segs|);
    UserReads(mem', used', tree', segs[i].vaddr + k);
  }

  lemma {:induction false} PageAmongAll(segs: seq<Segment>, i: nat, page: nat, n: nat)
    requires i < n <= |segs| && segs[i].load && FirstPage(segs[i]) <= page < FirstPage(segs[i]) + PageCount(segs[i])
    ensures page in AllPages(segs, n)
  {
    if n > i + 1 {
      PageAmongAll(segs, i, page, n - 1);
    }
  }

  /** find_heap_start: the page boundary at or after the end of every segment, and no later one; a program without a
      segment fails the kernel's assertion. */
  method FindHeapStart(segs: seq<Segment>) returns (found: bool, start: nat)
    requires forall i :: 0 <= i < |segs| && segs[i].load ==> segs[i].vaddr + segs[i].memsz <= LOWER_PAGES * PAGE
    ensures found <==> exists i :: 0 <= i < |segs| && segs[i].load && segs[i].vaddr + segs[i].memsz > 0
    ensures found ==> start % PAGE == 0 && start <= LOWER_PAGES * PAGE
    ensures found ==> forall i :: 0 <= i < |segs| && segs[i].load ==> FirstPage(segs[i]) + PageCount(segs[i]) <= start / PAGE
    ensures found ==> exists i :: 0 <= i < |segs| && segs[i].load && FirstPage(segs[i]) + PageCount(segs[i]) == start / PAGE
  {
    var end := 0;
    for i := 0 to |segs|
      invariant forall k :: 0 <= k < i && segs[k].load ==> segs[k].vaddr + segs[k].memsz <= end
      invariant end == 0 || exists k :: 0 <= k < i && segs[k].load && segs[k].vaddr + segs[k].memsz == end
      invariant end <= LOWER_PAGES * PAGE
    {
      if segs[i].load && segs[i].vaddr + segs[i].memsz > end {
        end := segs[i].vaddr + segs[i].memsz;
      }
    }
    if end == 0 {
      return false, 0;
    }
    found, start := true, AlignUp64(end, PAGE);
  }
}
