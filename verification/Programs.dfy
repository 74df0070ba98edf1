/** The address space of a new program, as pm_execve and init_process_manager build it: its segments, an empty heap and a
    page of stack. */
module Programs {
  import opened Machine
  import opened PageTables
  import opened CloneSpec
  import opened WalkSpec
  import opened Vmm
  import opened Loader
  import opened Brk

  /** A program ready to start: its segments, an empty heap at `heap` with nothing above it but the stack, and a page of
      stack. */
  ghost predicate ProgramImage(mem: Memory, used: set<nat>, tree: Node, segs: seq<Segment>, data: seq<byte>, heap: nat) {
    && ProcessImage(mem, used, tree, segs, data, heap, heap) && Tidy(Space(tree), heap)
    && STACK_PAGE in Space(tree) && Space(tree)[STACK_PAGE].flags == USER_PAGE
  }

  lemma StackAdded(mem: Memory, mem': Memory, used: set<nat>, used1: set<nat>, used': set<nat>, tree: Node, tree': Node,
                   segs: seq<Segment>, data: seq<byte>, heap: nat, frame: nat)
    requires ProcessImage(mem, used, tree, segs, data, heap, heap) && heap <= STACK_BASE && heap % PAGE == 0
    requires Tidy(Space(tree), heap) && STACK_PAGE !in Space(tree) && used1 == used + {frame} && frame !in used
    requires MappedOne(mem, mem', used1, used', tree, tree', STACK_PAGE, Entry(USER_PAGE, frame))
    ensures ProgramImage(mem', used', tree', segs, data, heap)
    ensures Confined(mem, mem', used, used', tree, tree', {})
  {
    hide Space, SegmentLoaded, Frames, Confined;
    assert PageUp(heap) <= STACK_PAGE;
    forall i | 0 <= i < |segs| && segs[i].load ensures SegmentLoaded(mem', used', tree', segs[i], data) {
      SegmentKept(mem, mem', used, used', tree, tree', segs[i], data);
    }
    MappedConfined(mem, mem', used, used1, used', tree, tree', STACK_PAGE, Entry(USER_PAGE, frame));
  }

  /** Deleting another pagemap leaves the image as it is. */
  lemma ImageAfterDelete(mem: Memory, mem': Memory, used: set<nat>, used': set<nat>, trees: map<nat, Node>,
                         trees': map<nat, Node>, gone: nat, root: nat, segs: seq<Segment>, data: seq<byte>, heap: nat)
    requires Separate(mem, used, trees) && root in trees && root != gone
    requires DroppedSpace(mem, mem', used, used', trees, trees', gone)
    requires ProgramImage(mem, used, trees[root], segs, data, heap)
    ensures ProgramImage(mem', used', trees[root], segs, data, heap)
  {
    hide Space, SegmentLoaded, Frames, KernelHalf, TreeOk;
    var tree := trees[root];
    RootHasFrame(mem, used, trees, root);
    forall i | 0 <= i < |segs| && segs[i].load ensures SegmentLoaded(mem', used', tree, segs[i], data) {
      SegmentElsewhere(mem, used, tree, segs[i], data, Frames(trees[gone]));
      SegmentKept(mem, mem', used', used', tree, tree, segs[i], data);
    }
  }

  /** A segment lies in frames of its own address space only. */
  lemma SegmentElsewhere(mem: Memory, used: set<nat>, tree: Node, s: Segment, data: seq<byte>, others: set<nat>)
    requires TreeOk(mem, used, tree) && SegmentLoaded(mem, used, tree, s, data) && Frames(tree) !! others
    ensures SegmentLoaded(mem, used - others, tree, s, data)
  {
    hide Space, Frames, TreeOk;
    forall k: nat | k < s.memsz ensures ByteLoaded(mem, used - others, tree, s, data, k) {
      assert ByteLoaded(mem, used, tree, s, data, k);
      OwnFrames(mem, used, tree, (s.vaddr + k) / PAGE);
    }
  }

  lemma {:induction false} AllPagesBelow(segs: seq<Segment>, n: nat, limit: nat)
    requires n <= |segs| && forall i :: 0 <= i < |segs| && segs[i].load ==> FirstPage(segs[i]) + PageCount(segs[i]) <= limit
    ensures forall p :: p in AllPages(segs, n) ==> p < limit
  {
    if n > 0 {
      AllPagesBelow(segs, n - 1, limit);
    }
  }

  lemma BlankSpace(root: nat)
    ensures Space(Branch(ROOT_FLAGS, root, Blank())) == map[]
    ensures Frames(Branch(ROOT_FLAGS, root, Blank())) == {root}
  {
    var tree := Branch(ROOT_FLAGS, root, Blank());
    AbsentKids(tree.kids, LOWER_HALF);
    forall p: nat | p < LOWER_PAGES ensures Lookup(tree, PathOf(p)).None? {
      var path := PathOf(p);
      assert path[0] < |tree.kids| ==> Lookup(tree, path) == Lookup(Absent, path[1..]);
    }
  }

  /** A program loaded into a new pagemap has nothing mapped above its heap. */
  lemma LoadedTidy(mem: Memory, mem': Memory, used: set<nat>, used': set<nat>, root: nat, tree': Node, segs: seq<Segment>,
                   data: seq<byte>, heap: nat)
    requires LoadedSoFar(mem, mem', used, used', Branch(ROOT_FLAGS, root, Blank()), tree', segs, data, |segs|)
    requires heap % PAGE == 0 && heap <= STACK_BASE
    requires forall i :: 0 <= i < |segs| && segs[i].load ==> FirstPage(segs[i]) + PageCount(segs[i]) <= heap / PAGE
    ensures Tidy(Space(tree'), heap) && STACK_PAGE !in Space(tree')
    ensures Confined(mem, mem', used, used', Branch(ROOT_FLAGS, root, Blank()), tree', {})
  {
    hide Space, SegmentLoaded, FirstPage, PageCount, Blank, Confined;
    BlankSpace(root);
    AllPagesBelow(segs, |segs|, heap / PAGE);
    assert PageUp(heap) == heap / PAGE <= STACK_PAGE;
  }

  /** A pagemap built from nothing lies wholly in frames that were free, and nothing else was written. */
  ghost predicate Fresh(mem: Memory, mem': Memory, used: set<nat>, used': set<nat>, tree: Node) {
    Taken(used, used', Frames(tree)) && OnlyIn(mem, mem', Frames(tree))
  }

  lemma FreshGrows(mem: Memory, mem1: Memory, mem': Memory, used: set<nat>, used1: set<nat>, used': set<nat>, tree: Node,
                   tree': Node)
    requires Fresh(mem, mem1, used, used1, tree) && Confined(mem1, mem', used1, used', tree, tree', {}) && 0 in used
    ensures Fresh(mem, mem', used, used', tree')
  {
    hide Frames;
    OnlyInTrans(mem, mem1, mem', Frames(tree), Frames(tree'), Frames(tree'));
  }

  /** A new pagemap after load_elf_to_memory. */
  lemma ProgramLoaded(mem: Memory, mem1: Memory, mem': Memory, used: set<nat>, used1: set<nat>, used': set<nat>, root: nat,
                      tree': Node, segs: seq<Segment>, data: seq<byte>, heap: nat)
    requires Taken(used, used1, {root}) && OnlyIn(mem, mem1, {root}) && 0 in used
    requires LoadedSoFar(mem1, mem', used1, used', Branch(ROOT_FLAGS, root, Blank()), tree', segs, data, |segs|)
    requires heap % PAGE == 0
    requires forall i :: 0 <= i < |segs| && segs[i].load ==> segs[i].vaddr + segs[i].memsz <= STACK_BASE
    requires forall i :: 0 <= i < |segs| && segs[i].load ==> FirstPage(segs[i]) + PageCount(segs[i]) <= heap / PAGE
    requires exists i :: 0 <= i < |segs| && segs[i].load && FirstPage(segs[i]) + PageCount(segs[i]) == heap / PAGE
    ensures heap <= STACK_BASE && ProcessImage(mem', used', tree', segs, data, heap, heap)
    ensures Tidy(Space(tree'), heap) && STACK_PAGE !in Space(tree') && Fresh(mem, mem', used, used', tree')
  {
    hide LoadedSoFar, ProcessImage, Space, Frames, Blank, Tidy, Confined, FirstPage, PageCount;
    var tree1 := Branch(ROOT_FLAGS, root, Blank());
    BlankSpace(root);
    StartBelowStack(segs, heap);
    LoadedImage(mem1, mem', used1, used', tree1, tree', segs, data, heap);
    LoadedTidy(mem1, mem', used1, used', root, tree', segs, data, heap);
    FreshGrows(mem, mem1, mem', used, used1, used', tree1, tree');
  }

  /** The segments of a program in a new pagemap, and where its heap starts. */
  method LoadProgram(vm: AddressSpaces, segs: seq<Segment>, f: V.File) returns (ok: bool, root: nat, heap: nat)
    requires vm.Valid() && IsTable(vm.mem, vm.current)
    requires forall i :: 0 <= i < |segs| && segs[i].load ==>
               WellFormed(segs[i], f) && segs[i].vaddr + segs[i].memsz <= STACK_BASE
    modifies vm`mem, vm`trees, vm.pmm.bitmap, vm.pmm.bitmap.bytes
    ensures ok ==> vm.Valid() && root !in old(vm.trees) && root in vm.trees && f.backing.Regular?
    ensures ok ==> vm.trees == With(old(vm.trees), root, vm.trees[root]) && heap <= STACK_BASE && heap % PAGE == 0
    ensures ok ==> ProcessImage(vm.mem, vm.pmm.Used(), vm.trees[root], segs, f.backing.data, heap, heap)
    ensures ok ==> Tidy(Space(vm.trees[root]), heap) && STACK_PAGE !in Space(vm.trees[root])
    ensures ok ==> Fresh(old(vm.mem), vm.mem, old(vm.pmm.Used()), vm.pmm.Used(), vm.trees[root])
    ensures ok ==> |vm.pmm.Free()| >= |old(vm.pmm.Free())| - 1 - 4 * TotalPages(segs, |segs|)
    ensures !ok ==> LoadFails(vm.pmm, {}, |old(vm.pmm.Free())| - 1, segs)
  {
    hide Separate, LoadedSoFar, ProcessImage, Space, Frames, Blank, KernelHalf, Disjoint, NoRoom, Tidy, FirstPage, PageCount,
         TotalPages, Fresh;
    ghost var trees0, mem0, used0 := vm.trees, vm.mem, vm.pmm.Used();
    ok, root := vm.CreateNewPagemap();
    heap := 0;
    if !ok {
      return;
    }
    BlankSpace(root);
    ghost var mem1, used1, tree1 := vm.mem, vm.pmm.Used(), vm.trees[root];
    assert Space(tree1).Keys == {};
    var result := LoadBinarySegments(vm, root, segs, f);
    if result != Loaded {
      return false, root, 0;
    }
    var found;
    found, heap := FindHeapStart(segs);
    if !found {
      return false, root, 0;
    }
    WithTwice(trees0, root, tree1, vm.trees[root]);
    ProgramLoaded(mem0, mem1, vm.mem, used0, used1, vm.pmm.Used(), root, vm.trees[root], segs, f.backing.data, heap);
  }

  /** The new address space of execve and of init: the program's segments and one page of stack. false is a panic, or in
      execve the failure path. */
  method BuildImage(vm: AddressSpaces, segs: seq<Segment>, f: V.File, override: bool) returns (ok: bool, root: nat, heap: nat)
    requires vm.Valid() && IsTable(vm.mem, vm.current)
    requires forall i :: 0 <= i < |segs| && segs[i].load ==>
               WellFormed(segs[i], f) && segs[i].vaddr + segs[i].memsz <= STACK_BASE
    modifies vm`mem, vm`trees, vm.pmm.bitmap, vm.pmm.bitmap.bytes
    ensures ok ==> vm.Valid() && root !in old(vm.trees) && root in vm.trees && f.backing.Regular? && heap <= STACK_BASE
    ensures ok ==> vm.trees == With(old(vm.trees), root, vm.trees[root])
    ensures ok ==> ProgramImage(vm.mem, vm.pmm.Used(), vm.trees[root], segs, f.backing.data, heap)
    ensures ok ==> Fresh(old(vm.mem), vm.mem, old(vm.pmm.Used()), vm.pmm.Used(), vm.trees[root])
    // A root table, a page of stack and its tables come on top of the segments.
    ensures !ok ==> LoadFails(vm.pmm, {}, |old(vm.pmm.Free())| - 5, segs)
  {
    hide Separate, ProgramImage, ProcessImage, Space, Frames, Disjoint, NoRoom, Tidy, Confined, TotalPages, WellFormed, Fresh;
    ghost var trees0, mem0, used0 := vm.trees, vm.mem, vm.pmm.Used();
    ok, root, heap := LoadProgram(vm, segs, f);
    if !ok {
      return;
    }
    ghost var mem1, used1, tree1 := vm.mem, vm.pmm.Used(), vm.trees[root];
    ok := AddStack(vm, root, override, segs, f.backing.data, heap);
    if ok {
      WithTwice(trees0, root, tree1, vm.trees[root]);
      FreshGrows(mem0, mem1, vm.mem, used0, used1, vm.pmm.Used(), tree1, vm.trees[root]);
    }
  }

  /** The stack page. */
  method AddStack(vm: AddressSpaces, root: nat, override: bool, ghost segs: seq<Segment>, ghost data: seq<byte>,
                  ghost heap: nat) returns (ok: bool)
    requires vm.Valid() && root in vm.trees && heap <= STACK_BASE && heap % PAGE == 0
    requires ProcessImage(vm.mem, vm.pmm.Used(), vm.trees[root], segs, data, heap, heap)
    requires Tidy(Space(vm.trees[root]), heap) && STACK_PAGE !in Space(vm.trees[root])
    modifies vm`mem, vm`trees, vm.pmm.bitmap, vm.pmm.bitmap.bytes
    ensures ok ==> vm.Valid() && root in vm.trees && vm.trees == With(old(vm.trees), root, vm.trees[root])
    ensures ok ==> ProgramImage(vm.mem, vm.pmm.Used(), vm.trees[root], segs, data, heap)
    ensures ok ==> Confined(old(vm.mem), vm.mem, old(vm.pmm.Used()), vm.pmm.Used(), old(vm.trees)[root], vm.trees[root], {})
    ensures !ok ==> |old(vm.pmm.Free())| < 4
  {
    hide Separate, ProcessImage, ProgramImage, MappedOne, Space, Missing, Frames, Tidy, Confined;
    ghost var mem0, used0, tree0 := vm.mem, vm.pmm.Used(), vm.trees[root];
    var addr := vm.pmm.AllocPage();
    if addr == 0 {
      return false;
    }
    ghost var used1 := vm.pmm.Used();
    assert vm.pmm.Free() == old(vm.pmm.Free()) - {addr / PAGE};
    SeparateGrows(vm.mem, used0, used1, vm.trees);
    FreshFrame(vm.mem, used0, vm.trees, addr / PAGE);
    var result := vm.MapPage(root, STACK_PAGE, addr / PAGE, override, true, true);
    if result != Mapped {
      return false;
    }
    StackAdded(mem0, vm.mem, used0, used1, vm.pmm.Used(), tree0, vm.trees[root], segs, data, heap, addr / PAGE);
    return true;
  }
}
