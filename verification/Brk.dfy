/** kernel/syscall/syscall_memops.c: growing the heap of a process. */
module Brk {
  import opened Machine
  import opened PageTables
  import opened WalkSpec
  import opened Pmm
  import opened Vmm
  import opened Loader
  import opened Costs

  /** Where the page of the process stack starts. */
  const STACK_BASE: nat := USER_STACK_PTR - PAGE
  const STACK_PAGE: nat := STACK_BASE / PAGE

  /** The first page at or after an address. */
  function PageUp(addr: nat): nat {
    (addr + PAGE - 1) / PAGE
  }

  /** Pages lo .. hi - 1 are user pages now; every other page is as it was. */
  ghost predicate Grown(space: map<nat, Entry>, space': map<nat, Entry>, lo: nat, hi: nat) {
    && space'.Keys == space.Keys + Range(lo, Max(0, hi - lo))
    && (forall p: nat :: p in space && !(lo <= p < hi) ==> space'[p] == space[p])
    && (forall p: nat :: lo <= p < hi ==> p in space' && space'[p].flags == USER_PAGE)
  }

  lemma GrownNothing(space: map<nat, Entry>, lo: nat)
    ensures Grown(space, space, lo, lo)
  {
  }

  lemma GrownSnoc(space: map<nat, Entry>, space1: map<nat, Entry>, space': map<nat, Entry>, lo: nat, hi: nat, e: Entry)
    requires lo <= hi && Grown(space, space1, lo, hi) && space' == space1[hi := e] && e.flags == USER_PAGE
    ensures Grown(space, space', lo, hi + 1)
  {
    assert Range(lo, hi + 1 - lo) == Range(lo, hi - lo) + {hi};
  }

  /** The frames pages lo .. hi - 1 are mapped to. */
  ghost function FramesOf(space: map<nat, Entry>, lo: nat, hi: nat): set<nat> {
    if hi <= lo then {} else FramesOf(space, lo, hi - 1) + FrameOf(space, hi - 1)
  }

  /** Pages lo .. hi - 1 are on frames that were free. */
  ghost predicate OnNewFrames(space': map<nat, Entry>, used: set<nat>, used': set<nat>, lo: nat, hi: nat) {
    forall p: nat :: lo <= p < hi ==> p in space' && space'[p].index in used' - used
  }

  /** Only the heap of one pagemap grew: pages lo .. hi - 1; no data in use was written. The frames those pages had before
      left the pagemap, and nobody has them now. */
  ghost predicate HeapGrown(mem: Memory, mem': Memory, used: set<nat>, used': set<nat>, tree: Node, tree': Node,
                            lo: nat, hi: nat) {
    && Grown(Space(tree), Space(tree'), lo, hi) && used <= used' && PagesKept(mem, mem', used)
    && Confined(mem, mem', used, used', tree, tree', FramesOf(Space(tree), lo, hi)) && Covered(tree, tree', lo, hi)
    && OnNewFrames(Space(tree'), used, used', lo, hi)
  }

  lemma HeapGrownNothing(mem: Memory, used: set<nat>, tree: Node, lo: nat)
    ensures HeapGrown(mem, mem, used, used, tree, tree, lo, lo)
  {
    hide Covered;
    CoveredNothing(tree, lo);
    GrownNothing(Space(tree), lo);
    ConfinedNothing(mem, used, tree);
  }

  lemma HeapGrownSnoc(mem: Memory, mem1: Memory, mem': Memory, used: set<nat>, used1: set<nat>, used2: set<nat>,
                      used': set<nat>, tree: Node, tree1: Node, tree': Node, lo: nat, hi: nat, frame: nat)
    requires lo <= hi && HeapGrown(mem, mem1, used, used1, tree, tree1, lo, hi)
    requires used2 == used1 + {frame} && frame !in used1 && TreeOk(mem, used, tree) && hi < LOWER_PAGES
    requires MappedOne(mem1, mem', used2, used', tree1, tree', hi, Entry(USER_PAGE, frame))
    ensures HeapGrown(mem, mem', used, used', tree, tree', lo, hi + 1)
  {
    hide Space, Frames, TreeOk, Confined, Covered, TablesAdded;
    CoveredSnoc(tree, tree1, tree', lo, hi);
    GrownSnoc(Space(tree), Space(tree1), Space(tree'), lo, hi, Entry(USER_PAGE, frame));
    FrameInTree(mem, used, tree, hi);
    assert FrameOf(Space(tree1), hi) == FrameOf(Space(tree), hi);
    StillInTree(mem, mem1, used, used1, tree, tree1, lo, hi);
    MappedConfined(mem1, mem', used1, used2, used', tree1, tree', hi, Entry(USER_PAGE, frame));
    ConfinedTrans(mem, mem1, mem', used, used1, used', tree, tree1, tree', FramesOf(Space(tree), lo, hi),
                  FrameOf(Space(tree), hi));
  }

  lemma FrameInTree(mem: Memory, used: set<nat>, tree: Node, page: nat)
    requires TreeOk(mem, used, tree)
    ensures FrameOf(Space(tree), page) <= Frames(tree) <= used
  {
    hide Space;
    if page in Space(tree) {
      OwnFrames(mem, used, tree, page);
    }
  }

  /** A page not yet grown over still has its frame. */
  lemma StillInTree(mem: Memory, mem1: Memory, used: set<nat>, used1: set<nat>, tree: Node, tree1: Node, lo: nat, hi: nat)
    requires TreeOk(mem, used, tree) && Confined(mem, mem1, used, used1, tree, tree1, FramesOf(Space(tree), lo, hi))
    ensures FrameOf(Space(tree), hi) <= Frames(tree1)
  {
    hide Space, Frames, TreeOk;
    FrameInTree(mem, used, tree, hi);
    if hi in Space(tree) {
      OwnFrames(mem, used, tree, hi);
      NotAmong(Space(tree), lo, hi, hi);
    }
  }

  /** Where pages have frames of their own, a page's frame is among those of a range only if the page is in it. */
  lemma {:induction false} NotAmong(space: map<nat, Entry>, lo: nat, hi: nat, page: nat)
    requires page in space && hi <= page && forall p :: p in space && p != page ==> space[p].index != space[page].index
    ensures space[page].index !in FramesOf(space, lo, hi)
  {
    if lo < hi {
      NotAmong(space, lo, hi - 1, page);
    }
  }

  /** brk loses no frame exactly if no page it grows over was mapped. */
  lemma {:induction false} NothingLost(space: map<nat, Entry>, lo: nat, hi: nat)
    ensures FramesOf(space, lo, hi) == {} <==> forall p: nat :: lo <= p < hi ==> p !in space
  {
    if lo < hi {
      NothingLost(space, lo, hi - 1);
    }
  }

  /** No page between the break and the stack is mapped. */
  ghost predicate Tidy(space: map<nat, Entry>, heap: nat) {
    forall p: nat :: PageUp(heap) <= p < STACK_PAGE ==> p !in space
  }

  /** From a tidy heap a call loses no frame, and the heap stays tidy exactly if the call does not stop part way. */
  lemma TidyCall(space: map<nat, Entry>, space': map<nat, Entry>, heap: nat, heap': nat, reached: nat)
    requires Tidy(space, heap) && Grown(space, space', PageUp(heap), PageUp(heap) + reached)
    requires PageUp(heap) <= PageUp(heap') <= PageUp(heap) + reached <= STACK_PAGE
    ensures FramesOf(space, PageUp(heap), PageUp(heap) + reached) == {}
    ensures Tidy(space', heap') <==> PageUp(heap') == PageUp(heap) + reached
  {
    hide PageUp;
    NothingLost(space, PageUp(heap), PageUp(heap) + reached);
    if PageUp(heap') < PageUp(heap) + reached {
      assert PageUp(heap') in space';
    }
  }

  /** After a call that stopped part way, the next call that grows the heap as far loses frames. */
  lemma LeakAfterFailure(space: map<nat, Entry>, space': map<nat, Entry>, lo: nat, reached: nat, hi: nat)
    requires Grown(space, space', lo, lo + reached) && reached > 0 && lo + reached <= hi
    ensures FramesOf(space', lo, hi) != {}
  {
    NothingLost(space', lo, hi);
    assert lo in space';
  }

  /** Frames that belong to no pagemap can go. */
  lemma SeparateWithout(mem: Memory, used: set<nat>, gone: set<nat>, trees: map<nat, Node>)
    requires Separate(mem, used, trees) && forall r :: r in trees ==> gone !! Frames(trees[r])
    ensures Separate(mem, used - gone, trees)
  {
    hide Frames, TreeOk;
    forall r | r in trees ensures Pagemap(mem, used - gone, r, trees[r]) {
      FramesInUse(mem, used, trees, r);
      RootHasFrame(mem, used, trees, r);
      PagemapFrame(mem, mem, used, used - gone, r, trees[r]);
    }
  }

  /** What one brk call has done once it has mapped pages lo .. hi - 1. */
  ghost predicate Growing(vm: AddressSpaces, root: nat, mem0: Memory, used0: set<nat>, trees0: map<nat, Node>,
                          lo: nat, hi: nat)
    reads vm, vm.pmm.bitmap, vm.pmm.bitmap.bytes
  {
    && vm.Valid() && root in trees0 && root in vm.trees && vm.trees == With(trees0, root, vm.trees[root])
    && HeapGrown(mem0, vm.mem, used0, vm.pmm.Used(), trees0[root], vm.trees[root], lo, hi)
  }

  datatype Turn = More | OutOfFrames | Halt

  /** One turn of the loop of syscall_brk_handler: a frame, and a page for it. */
  method GrowOne(vm: AddressSpaces, root: nat, page: nat, ghost lo: nat,
                 ghost mem0: Memory, ghost used0: set<nat>, ghost trees0: map<nat, Node>) returns (step: Turn)
    requires Growing(vm, root, mem0, used0, trees0, lo, page) && lo <= page < LOWER_PAGES
    requires TreeOk(mem0, used0, trees0[root])
    modifies vm`mem, vm`trees, vm.pmm.bitmap, vm.pmm.bitmap.bytes
    ensures step == More ==> Growing(vm, root, mem0, used0, trees0, lo, page + 1)
    ensures step == OutOfFrames ==> Growing(vm, root, mem0, used0, trees0, lo, page) && vm.pmm.Free() == {}
    // A page costs its frame and the tables that are missing.
    ensures step == More ==> |vm.pmm.Free()| == |old(vm.pmm.Free())| - 1 - NewTables(trees0[root], lo, page)
    ensures step == OutOfFrames <==> |old(vm.pmm.Free())| == 0
    ensures step == Halt <==> 0 < |old(vm.pmm.Free())| <= NewTables(trees0[root], lo, page)
  {
    hide HeapGrown, MappedOne, Separate, Space, Missing, Frames, TreeOk, NewTables;
    GrownMissing(mem0, vm.mem, used0, vm.pmm.Used(), trees0[root], vm.trees[root], lo, page);
    ghost var mem1, used1, tree1, trees1 := vm.mem, vm.pmm.Used(), vm.trees[root], vm.trees;
    var addr := vm.pmm.AllocPage();
    if addr == 0 {
      assert vm.pmm.Used() == used1;
      return OutOfFrames;
    }
    ghost var used2 := vm.pmm.Used();
    assert vm.pmm.Free() == old(vm.pmm.Free()) - {addr / PAGE};
    SeparateGrows(vm.mem, used1, used2, vm.trees);
    FreshFrame(vm.mem, used1, vm.trees, addr / PAGE);
    var result := vm.MapPage(root, page, addr / PAGE, true, true, true);
    if result != Mapped {
      return Halt;
    }
    WithTwice(trees0, root, tree1, vm.trees[root]);
    HeapGrownSnoc(mem0, mem1, vm.mem, used0, used1, used2, vm.pmm.Used(), trees0[root], tree1, vm.trees[root], lo, page,
                  addr / PAGE);
    step := More;
  }

  lemma GrownMissing(mem: Memory, mem': Memory, used: set<nat>, used': set<nat>, tree: Node, tree': Node, lo: nat, page: nat)
    requires HeapGrown(mem, mem', used, used', tree, tree', lo, page) && lo <= page < LOWER_PAGES
    ensures Missing(tree', PathOf(page)) == NewTables(tree, lo, page)
  {
    hide Covered;
    MissingNow(tree, tree', lo, page);
  }

  lemma FreshFrame(mem: Memory, used: set<nat>, trees: map<nat, Node>, f: nat)
    requires Separate(mem, used, trees) && f !in used
    ensures forall r :: r in trees ==> f !in Frames(trees[r])
  {
    forall r | r in trees ensures f !in Frames(trees[r]) {
      assert Pagemap(mem, used, r, trees[r]);
    }
  }

  lemma GrowingStart(vm: AddressSpaces, root: nat, lo: nat)
    requires vm.Valid() && root in vm.trees
    ensures Growing(vm, root, vm.mem, vm.pmm.Used(), vm.trees, lo, lo)
  {
    hide HeapGrown, Separate;
    assert vm.trees == With(vm.trees, root, vm.trees[root]);
    HeapGrownNothing(vm.mem, vm.pmm.Used(), vm.trees[root], lo);
  }

  lemma AlignUpIsPageUp(heap: nat, request: nat)
    requires heap <= request <= STACK_BASE
    ensures AlignUp64(heap, PAGE) / PAGE == PageUp(heap) && AlignUp64(request, PAGE) / PAGE == PageUp(request)
    ensures PageUp(heap) <= PageUp(request) <= LOWER_PAGES
  {
    AlignUpPage(heap);
    AlignUpPage(request);
  }

  lemma AlignUpPage(addr: nat)
    requires addr <= STACK_BASE
    ensures AlignUp64(addr, PAGE) / PAGE == PageUp(addr)
  {
  }

  /** What a brk call says about the break: nothing to do for a query or an attempt to shrink; success maps every page up
      to the new break; failure keeps the break. */
  ghost predicate BreakMoved(heap: nat, request: nat, heap': nat, reached: nat) {
    if request == 0 || request < heap then heap' == heap && reached == 0
    else if heap' == request then PageUp(heap) + reached == PageUp(request)
    else heap' == heap && PageUp(heap) + reached < PageUp(request)
  }

  /** The frames run out between two pages: exactly at page k. */
  ghost predicate StopsAt(tree: Node, lo: nat, hi: nat, free: nat, k: nat) {
    lo <= k < hi && Cost(tree, lo, k) == free
  }

  /** The frames run out in the middle of page k. */
  ghost predicate TearsAt(tree: Node, lo: nat, hi: nat, free: nat, k: nat) {
    lo <= k < hi && Cost(tree, lo, k) < free < Cost(tree, lo, k + 1)
  }

  ghost predicate Tears(tree: Node, lo: nat, hi: nat, free: nat) {
    exists k: nat :: TearsAt(tree, lo, hi, free, k)
  }

  lemma TearsShort(tree: Node, lo: nat, hi: nat, free: nat)
    requires Tears(tree, lo, hi, free)
    ensures free < Cost(tree, lo, hi) && free < 4 * (hi - lo)
  {
    hide Cost;
    var k: nat :| TearsAt(tree, lo, hi, free, k);
    CostGrows(tree, lo, k + 1, hi);
    CostGrows(tree, lo, lo, hi);
    CostNothing(tree, lo);
  }

  /** Frames that run out between two pages neither suffice nor run out in the middle of one. */
  lemma StopsShort(tree: Node, lo: nat, hi: nat, free: nat, k: nat)
    requires StopsAt(tree, lo, hi, free, k)
    ensures free < Cost(tree, lo, hi) && !Tears(tree, lo, hi, free)
  {
    hide Cost;
    CostGrows(tree, lo, k, hi);
    if Tears(tree, lo, hi, free) {
      var j: nat :| TearsAt(tree, lo, hi, free, j);
      if j < k {
        CostGrows(tree, lo, j + 1, k);
      } else {
        CostGrows(tree, lo, k, j);
      }
      assert false;
    }
  }

  lemma CostSnoc(tree: Node, lo: nat, p: nat)
    requires lo <= p
    ensures Cost(tree, lo, p + 1) == Cost(tree, lo, p) + 1 + NewTables(tree, lo, p)
  {
  }

  /** syscall_brk_handler. `halted` is the panic of a page table that cannot be allocated. It succeeds exactly if the
      frames suffice for all pages and missing tables, fails exactly if they run out between two pages, which it then has
      reached, and halts exactly if they run out in the middle of a page. */
  method BrkHandler(vm: AddressSpaces, root: nat, heap: nat, request: nat)
    returns (halted: bool, heap': nat, rax: nat, ghost reached: nat)
    requires vm.Valid() && root in vm.trees && heap <= STACK_BASE && request <= STACK_BASE
    modifies vm`mem, vm`trees, vm.pmm.bitmap, vm.pmm.bitmap.bytes
    ensures rax == heap' && heap' <= STACK_BASE
    ensures !halted ==>
              Growing(vm, root, old(vm.mem), old(vm.pmm.Used()), old(vm.trees), PageUp(heap), PageUp(heap) + reached)
    ensures !halted ==> BreakMoved(heap, request, heap', reached)
    ensures !halted ==>
              |vm.pmm.Free()| == |old(vm.pmm.Free())| - Cost(old(vm.trees)[root], PageUp(heap), PageUp(heap) + reached)
    ensures halted ==> request != 0 && request >= heap
    ensures request != 0 && request >= heap ==>
              && (halted <==> Tears(old(vm.trees)[root], PageUp(heap), PageUp(request), |old(vm.pmm.Free())|))
              && (!halted && PageUp(heap) + reached == PageUp(request) <==>
                  Cost(old(vm.trees)[root], PageUp(heap), PageUp(request)) <= |old(vm.pmm.Free())|)
              && (!halted && PageUp(heap) + reached == PageUp(request) ==> heap' == request)
              && (!halted && PageUp(heap) + reached < PageUp(request) ==>
                  StopsAt(old(vm.trees)[root], PageUp(heap), PageUp(request), |old(vm.pmm.Free())|, PageUp(heap) + reached))
  {
    hide Growing, PageUp, AlignUp64, Separate, TreeOk, Cost, Tears, StopsAt, NewTables;
    ghost var mem0, used0, trees0, free0 := vm.mem, vm.pmm.Used(), vm.trees, |vm.pmm.Free()|;
    GrowingStart(vm, root, PageUp(heap));
    RootHasFrame(mem0, used0, trees0, root);
    CostNothing(trees0[root], PageUp(heap));
    if request == 0 || request < heap {
      return false, heap, heap, 0;
    }
    AlignUpIsPageUp(heap, request);
    var page, end := AlignUp64(heap, PAGE) / PAGE, AlignUp64(request, PAGE) / PAGE;
    while page < end
      invariant PageUp(heap) <= page <= end
      invariant Growing(vm, root, mem0, used0, trees0, PageUp(heap), page)
      invariant |vm.pmm.Free()| == free0 - Cost(trees0[root], PageUp(heap), page)
    {
      var step := GrowOne(vm, root, page, PageUp(heap), mem0, used0, trees0);
      CostSnoc(trees0[root], PageUp(heap), page);
      if step == OutOfFrames {
        StopsHere(trees0[root], PageUp(heap), end, free0, page);
        return false, heap, heap, page - PageUp(heap);
      }
      if step == Halt {
        TearsHere(trees0[root], PageUp(heap), end, free0, page);
        return true, heap, heap, 0;
      }
      page := page + 1;
    }
    Suffices(trees0[root], PageUp(heap), end, free0);
    return false, request, request, page - PageUp(heap);
  }

  lemma StopsHere(tree: Node, lo: nat, hi: nat, free: nat, k: nat)
    requires lo <= k < hi && Cost(tree, lo, k) == free
    ensures StopsAt(tree, lo, hi, free, k) && free < Cost(tree, lo, hi) && !Tears(tree, lo, hi, free)
  {
    hide Cost, Tears;
    StopsShort(tree, lo, hi, free, k);
  }

  lemma TearsHere(tree: Node, lo: nat, hi: nat, free: nat, k: nat)
    requires lo <= k < hi && Cost(tree, lo, k) < free < Cost(tree, lo, k + 1)
    ensures Tears(tree, lo, hi, free) && free < Cost(tree, lo, hi)
  {
    hide Cost;
    assert TearsAt(tree, lo, hi, free, k);
    TearsShort(tree, lo, hi, free);
  }

  lemma Suffices(tree: Node, lo: nat, hi: nat, free: nat)
    requires Cost(tree, lo, hi) <= free
    ensures !Tears(tree, lo, hi, free)
  {
    hide Cost;
    if Tears(tree, lo, hi, free) {
      TearsShort(tree, lo, hi, free);
      assert false;
    }
  }

  // ---- A call that stops part way, and what the next one loses.

  /** The pages from lo on have all their tables. */
  ghost predicate TablesReady(tree: Node, lo: nat, n: nat) {
    forall p: nat, h: nat :: lo <= p < lo + n && 1 <= h <= 3 ==> TableFor(tree, p, h)
  }

  lemma {:induction false} PagesOnly(tree: Node, lo: nat, n: nat)
    requires TablesReady(tree, lo, n)
    ensures Cost(tree, lo, lo + n) == n
  {
    if n == 0 {
      CostNothing(tree, lo);
    } else {
      PagesOnly(tree, lo, n - 1);
      CostSnoc(tree, lo, lo + n - 1);
      assert TableFor(tree, lo + n - 1, 1) && TableFor(tree, lo + n - 1, 2) && TableFor(tree, lo + n - 1, 3);
    }
  }

  /** With a single frame free, a call for two pages stops after the first: the page stays mapped, the break does not move. */
  method StopPartWay(vm: AddressSpaces, root: nat, heap: nat) returns (heap': nat, ghost taken: nat)
    requires vm.Valid() && root in vm.trees && (PageUp(heap) + 2) * PAGE <= STACK_BASE
    requires |vm.pmm.Free()| == 1 && TablesReady(vm.trees[root], PageUp(heap), 2)
    modifies vm`mem, vm`trees, vm.pmm.bitmap, vm.pmm.bitmap.bytes
    ensures vm.Valid() && root in vm.trees && vm.trees == With(old(vm.trees), root, vm.trees[root])
    ensures heap' == heap && old(vm.pmm.Free()) == {taken} && vm.pmm.Used() == old(vm.pmm.Used()) + {taken}
    ensures PageUp(heap) in Space(vm.trees[root]) && Space(vm.trees[root])[PageUp(heap)].index == taken
    ensures TablesReady(vm.trees[root], PageUp(heap), 2)
    ensures HeapGrown(old(vm.mem), vm.mem, old(vm.pmm.Used()), vm.pmm.Used(), old(vm.trees)[root], vm.trees[root],
                      PageUp(heap), PageUp(heap) + 1)
  {
    hide Separate, Space, Frames, TreeOk, HeapGrown, Cost, Tears, StopsAt, PageUp, TablesReady;
    ghost var mem0, used0, tree0, lo := vm.mem, vm.pmm.Used(), vm.trees[root], PageUp(heap);
    taken :| taken in vm.pmm.Free();
    OnlyOne(vm.pmm.Free(), taken);
    var request := (PageUp(heap) + 2) * PAGE;
    TwoPages(tree0, heap);
    var halted, rax; ghost var reached;
    halted, heap', rax, reached := BrkHandler(vm, root, heap, request);
    OnlyFirst(tree0, lo, reached);
    AllTaken(vm.pmm.Frames(), used0, vm.pmm.Used(), taken);
    FirstPageTaken(mem0, vm.mem, used0, vm.pmm.Used(), tree0, vm.trees[root], lo, taken);
  }

  lemma OnlyOne(free: set<nat>, f: nat)
    requires |free| == 1 && f in free
    ensures free == {f}
  {
    assert |free - {f}| == 0;
  }

  lemma TwoPages(tree: Node, heap: nat)
    requires TablesReady(tree, PageUp(heap), 2)
    ensures var lo, request := PageUp(heap), (PageUp(heap) + 2) * PAGE;
            && PageUp(request) == lo + 2 && request >= heap && request != 0
            && Cost(tree, lo, lo + 1) == 1 && Cost(tree, lo, lo + 2) == 2 && Cost(tree, lo, lo) == 0
            && !Tears(tree, lo, lo + 2, 1)
  {
    hide Cost, Tears;
    var lo := PageUp(heap);
    PagesOnly(tree, lo, 0);
    PagesOnly(tree, lo, 1);
    PagesOnly(tree, lo, 2);
    StopsHere(tree, lo, lo + 2, 1, lo + 1);
  }

  lemma OnlyFirst(tree: Node, lo: nat, reached: nat)
    requires StopsAt(tree, lo, lo + 2, 1, lo + reached) && Cost(tree, lo, lo) == 0
    ensures reached == 1
  {
  }

  lemma AllTaken(frames: nat, used: set<nat>, used': set<nat>, f: nat)
    requires used <= used' <= Range(0, frames) && Range(0, frames) - used == {f} && |Range(0, frames) - used'| == 0
    ensures used' == used + {f}
  {
    forall g | g in used' ensures g in used + {f} {
      assert g in Range(0, frames);
    }
    assert f in Range(0, frames) - used;
    assert Range(0, frames) - used' == {};
  }

  lemma FirstPageTaken(mem: Memory, mem': Memory, used: set<nat>, used': set<nat>, tree: Node, tree': Node, lo: nat, f: nat)
    requires HeapGrown(mem, mem', used, used', tree, tree', lo, lo + 1) && used' == used + {f} && TablesReady(tree, lo, 2)
    requires lo + 2 <= LOWER_PAGES
    ensures lo in Space(tree') && Space(tree')[lo].index == f && TablesReady(tree', lo, 2)
  {
    hide Space, Frames, Confined, TableFor;
  }

  /** Once another frame is free, the call for one page succeeds, and the frame the page had is in use for nobody. */
  method LosesFrame(vm: AddressSpaces, root: nat, heap: nat, spare: nat) returns (heap': nat, ghost lost: nat)
    requires vm.Valid() && root in vm.trees && (PageUp(heap) + 2) * PAGE <= STACK_BASE
    requires |vm.pmm.Free()| == 1 && TablesReady(vm.trees[root], PageUp(heap), 2)
    requires spare in vm.pmm.Used() && spare != 0 && forall r :: r in vm.trees ==> spare !in Frames(vm.trees[r])
    modifies vm`mem, vm`trees, vm.pmm.bitmap, vm.pmm.bitmap.bytes
    ensures vm.Valid() && old(vm.pmm.Free()) == {lost} && heap' == (PageUp(heap) + 1) * PAGE
    ensures lost in vm.pmm.Used() && forall r :: r in vm.trees ==> lost !in Frames(vm.trees[r])
  {
    hide Separate, Space, Frames, TreeOk, HeapGrown, Cost, Tears, StopsAt, PageUp, TablesReady;
    ghost var mem0, used0, trees0 := vm.mem, vm.pmm.Used(), vm.trees;
    heap', lost := StopPartWay(vm, root, heap);
    ghost var mem1, used1, trees1 := vm.mem, vm.pmm.Used(), vm.trees;
    SpareStays(mem0, mem1, used0, used1, trees0, trees1, root, PageUp(heap), spare);
    var ok := vm.pmm.FreePage(spare * PAGE);
    FrameNumber(spare);
    SeparateWithout(vm.mem, used1, {spare}, vm.trees);
    ghost var used2 := vm.pmm.Used();
    assert vm.pmm.Free() == {spare};
    OnePage(vm.trees[root], heap);
    var halted, rax; ghost var reached;
    halted, heap', rax, reached := BrkHandler(vm, root, heap, (PageUp(heap) + 1) * PAGE);
    LostForGood(mem1, vm.mem, used2, vm.pmm.Used(), trees1, vm.trees, root, PageUp(heap), lost);
  }

  lemma FrameNumber(f: nat)
    ensures f * PAGE / PAGE == f
  {
  }

  lemma OnePage(tree: Node, heap: nat)
    requires TablesReady(tree, PageUp(heap), 2)
    ensures var lo, request := PageUp(heap), (PageUp(heap) + 1) * PAGE;
            PageUp(request) == lo + 1 && request >= heap && request != 0 && Cost(tree, lo, lo + 1) == 1
  {
    hide Cost;
    PagesOnly(tree, PageUp(heap), 1);
  }

  lemma SpareStays(mem: Memory, mem': Memory, used: set<nat>, used': set<nat>, trees: map<nat, Node>, trees': map<nat, Node>,
                   root: nat, lo: nat, spare: nat)
    requires root in trees && root in trees' && trees' == With(trees, root, trees'[root])
    requires HeapGrown(mem, mem', used, used', trees[root], trees'[root], lo, lo + 1)
    requires spare in used && forall r :: r in trees ==> spare !in Frames(trees[r])
    ensures forall r :: r in trees' ==> {spare} !! Frames(trees'[r])
  {
    hide Space, Frames, FramesOf, Grown, Covered, OnNewFrames;
  }

  lemma LostForGood(mem: Memory, mem': Memory, used: set<nat>, used': set<nat>, trees: map<nat, Node>,
                    trees': map<nat, Node>, root: nat, lo: nat, lost: nat)
    requires Separate(mem, used, trees) && root in trees && root in trees' && trees' == With(trees, root, trees'[root])
    requires HeapGrown(mem, mem', used, used', trees[root], trees'[root], lo, lo + 1)
    requires lo in Space(trees[root]) && Space(trees[root])[lo].index == lost && lost in used
    ensures lost in used' && forall r :: r in trees' ==> lost !in Frames(trees'[r])
  {
    hide Space, Frames, Grown, Covered, OnNewFrames, TreeOk, Separate;
    assert FramesOf(Space(trees[root]), lo, lo) == {};
    assert lost in FramesOf(Space(trees[root]), lo, lo + 1);
    forall r | r in trees' ensures lost !in Frames(trees'[r]) {
      if r != root {
        ApartFrom(mem, used, trees, r, root);
      }
    }
  }

  lemma ApartFrom(mem: Memory, used: set<nat>, trees: map<nat, Node>, r: nat, q: nat)
    requires Separate(mem, used, trees) && r in trees && q in trees && r != q
    ensures Frames(trees[r]) !! Frames(trees[q])
  {
  }

  // ---- A process that keeps growing its heap.

  /** All PT_LOAD segments can be read, and lie below the heap, whose pages are all mapped. */
  ghost predicate ProcessImage(mem: Memory, used: set<nat>, tree: Node, segs: seq<Segment>, data: seq<byte>,
                               start: nat, heap: nat) {
    && start <= heap
    && (forall i :: 0 <= i < |segs| && segs[i].load ==>
          SegmentLoaded(mem, used, tree, segs[i], data) && FirstPage(segs[i]) + PageCount(segs[i]) <= PageUp(start))
    && (forall p: nat :: PageUp(start) <= p < PageUp(heap) ==> p in Space(tree))
  }

  /** Every page below `limit` that is mapped keeps its translation. */
  ghost predicate BelowKept(tree: Node, tree': Node, limit: nat) {
    forall p: nat :: p < limit ==> Kept(tree, tree', p)
  }

  lemma BelowKeptTrans(tree: Node, tree1: Node, tree': Node, limit: nat)
    requires BelowKept(tree, tree1, limit) && BelowKept(tree1, tree', limit)
    ensures BelowKept(tree, tree', limit)
  {
    hide Space;
    forall p: nat | p < limit ensures Kept(tree, tree', p) {
      assert Kept(tree, tree1, p) && Kept(tree1, tree', p);
    }
  }

  lemma ImageSurvives(mem: Memory, mem': Memory, used: set<nat>, used': set<nat>, tree: Node, tree': Node,
                      segs: seq<Segment>, data: seq<byte>, start: nat, heap: nat, heap': nat, reached: nat)
    requires ProcessImage(mem, used, tree, segs, data, start, heap)
    requires HeapGrown(mem, mem', used, used', tree, tree', PageUp(heap), PageUp(heap) + reached)
    requires heap <= heap' && PageUp(heap') <= PageUp(heap) + reached
    ensures ProcessImage(mem', used', tree', segs, data, start, heap')
    ensures BelowKept(tree, tree', PageUp(heap))
  {
    hide Space, SegmentLoaded;
    assert PageUp(start) <= PageUp(heap);
    forall i | 0 <= i < |segs| && segs[i].load ensures SegmentLoaded(mem', used', tree', segs[i], data) {
      SegmentKept(mem, mem', used, used', tree, tree', segs[i], data);
    }
  }

  /** There are fewer than four free frames for each page some request asks for. */
  ghost predicate Scarce(free: int, requests: seq<nat>, n: nat, start: nat)
    requires n <= |requests|
  {
    exists j :: 0 <= j < n && free < 4 * (PageUp(requests[j]) - PageUp(start))
  }

  /** The address space and the break after each call so far. */
  datatype History = History(spaces: seq<Node>, heaps: seq<nat>)

  /** Ever since each call, no page that was mapped below its break has moved; breaks never fall. */
  ghost predicate NeverMoved(h: History, tree: Node, heap: nat, n: nat) {
    && |h.spaces| == |h.heaps| == n + 1 && h.spaces[n] == tree && h.heaps[n] == heap
    && forall i :: 0 <= i <= n ==> h.heaps[i] <= heap && BelowKept(h.spaces[i], tree, PageUp(h.heaps[i]))
  }

  ghost predicate OneCall(tree: Node, tree': Node, heap: nat, request: nat, heap': nat, reached: nat) {
    BreakMoved(heap, request, heap', reached) && Grown(Space(tree), Space(tree'), PageUp(heap), PageUp(heap) + reached)
  }

  ghost predicate SomeCall(tree: Node, tree': Node, heap: nat, request: nat, heap': nat) {
    exists reached: nat :: OneCall(tree, tree', heap, request, heap', reached)
  }

  /** Entry i + 1 of the history is what call i made of entry i. */
  ghost predicate CallAt(h: History, requests: seq<nat>, i: nat)
    requires |h.spaces| == |h.heaps| && i + 1 < |h.spaces| && i < |requests|
  {
    SomeCall(h.spaces[i], h.spaces[i + 1], h.heaps[i], requests[i], h.heaps[i + 1])
  }

  /** The history has one entry for the start and one for each of the first n calls. */
  ghost predicate Recorded(h: History, requests: seq<nat>, n: nat) {
    && |h.spaces| == |h.heaps| == n + 1 && n <= |requests|
    && forall i :: 0 <= i < n ==> CallAt(h, requests, i)
  }

  lemma RecordedSnoc(h: History, requests: seq<nat>, n: nat, tree': Node, heap': nat, reached: nat)
    requires Recorded(h, requests, n) && n < |requests|
    requires OneCall(h.spaces[n], tree', h.heaps[n], requests[n], heap', reached)
    ensures Recorded(History(h.spaces + [tree'], h.heaps + [heap']), requests, n + 1)
  {
    hide OneCall;
    var h' := History(h.spaces + [tree'], h.heaps + [heap']);
    forall i | 0 <= i < n + 1 ensures CallAt(h', requests, i) {
      if i < n {
        assert CallAt(h, requests, i);
        assert h'.spaces[i + 1] == h.spaces[i + 1] && h'.heaps[i + 1] == h.heaps[i + 1];
      } else {
        assert OneCall(h'.spaces[i], h'.spaces[i + 1], h'.heaps[i], requests[i], h'.heaps[i + 1], reached);
      }
    }
  }

  lemma NeverMovedSnoc(h: History, tree: Node, heap: nat, tree': Node, heap': nat, n: nat)
    requires NeverMoved(h, tree, heap, n) && heap <= heap' && BelowKept(tree, tree', PageUp(heap))
    ensures NeverMoved(History(h.spaces + [tree'], h.heaps + [heap']), tree', heap', n + 1)
  {
    hide BelowKept;
    var h' := History(h.spaces + [tree'], h.heaps + [heap']);
    forall i | 0 <= i <= n + 1 ensures h'.heaps[i] <= heap' && BelowKept(h'.spaces[i], tree', PageUp(h'.heaps[i])) {
      if i <= n {
        assert h'.heaps[i] == h.heaps[i] && h'.spaces[i] == h.spaces[i];
        PageUpGrows(h.heaps[i], heap);
        BelowKeptLess(tree, tree', PageUp(h.heaps[i]), PageUp(heap));
        BelowKeptTrans(h.spaces[i], tree, tree', PageUp(h.heaps[i]));
      } else {
        BelowKeptSelf(tree', PageUp(heap'));
      }
    }
  }

  lemma PageUpGrows(a: nat, b: nat)
    requires a <= b
    ensures PageUp(a) <= PageUp(b)
  {
  }

  lemma BelowKeptLess(tree: Node, tree': Node, limit: nat, limit': nat)
    requires BelowKept(tree, tree', limit') && limit <= limit'
    ensures BelowKept(tree, tree', limit)
  {
  }

  lemma BelowKeptSelf(tree: Node, limit: nat)
    ensures BelowKept(tree, tree, limit)
  {
  }

  /** After a load and any sequence of brk calls below the stack, failed ones included: every segment reads as it did,
      every page from the heap start to the break is mapped, and from each call on no page below its break has moved. It
      never halts while four frames are free for each page asked for. */
  method BrkSession(vm: AddressSpaces, root: nat, start: nat, requests: seq<nat>, ghost segs: seq<Segment>,
                    ghost data: seq<byte>) returns (halted: bool, heap: nat, ghost h: History)
    requires vm.Valid() && root in vm.trees && start <= STACK_BASE
    requires forall i :: 0 <= i < |requests| ==> requests[i] <= STACK_BASE
    requires ProcessImage(vm.mem, vm.pmm.Used(), vm.trees[root], segs, data, start, start)
    modifies vm`mem, vm`trees, vm.pmm.bitmap, vm.pmm.bitmap.bytes
    ensures !halted ==>
              && vm.Valid() && root in vm.trees && heap <= STACK_BASE
              && ProcessImage(vm.mem, vm.pmm.Used(), vm.trees[root], segs, data, start, heap)
              && NeverMoved(h, vm.trees[root], heap, |requests|) && Recorded(h, requests, |requests|)
              && h.spaces[0] == old(vm.trees)[root] && h.heaps[0] == start
    ensures halted ==> Scarce(|old(vm.pmm.Free())|, requests, |requests|, start)
  {
    hide ProcessImage, HeapGrown, Separate, Space, PageUp, BelowKept, Scarce, NeverMoved, Recorded, BreakMoved, Cost, Tears,
         StopsAt, Grown;
    ghost var free0 := |vm.pmm.Free()|;
    heap, h := start, History([vm.trees[root]], [start]);
    halted := false;
    BelowKeptSelf(vm.trees[root], PageUp(start));
    NeverMovedStart(vm.trees[root], start, requests);
    for i := 0 to |requests|
      invariant !halted && vm.Valid() && root in vm.trees && start <= heap <= STACK_BASE
      invariant ProcessImage(vm.mem, vm.pmm.Used(), vm.trees[root], segs, data, start, heap)
      invariant NeverMoved(h, vm.trees[root], heap, i) && Recorded(h, requests, i) && |h.spaces| == |h.heaps| == i + 1
      invariant h.spaces[i] == vm.trees[root] && h.heaps[i] == heap
      invariant h.spaces[0] == old(vm.trees)[root] && h.heaps[0] == start
      invariant |vm.pmm.Free()| >= free0 - 4 * (PageUp(heap) - PageUp(start)) || Scarce(free0, requests, i, start)
    {
      ghost var mem1, used1, tree1, heap1, free1 := vm.mem, vm.pmm.Used(), vm.trees[root], heap, |vm.pmm.Free()|;
      var rax; ghost var reached;
      halted, heap, rax, reached := BrkHandler(vm, root, heap, requests[i]);
      CallScarce(tree1, heap1, requests[i], heap, free1, reached, halted);
      ScarceNext(free0, free1, |vm.pmm.Free()|, requests, i, start, heap1, heap, reached, halted);
      if halted {
        ScarceMore(free0, requests, i + 1, |requests|, start);
        return;
      }
      ImageSurvives(mem1, vm.mem, used1, vm.pmm.Used(), tree1, vm.trees[root], segs, data, start, heap1, heap, reached);
      NeverMovedSnoc(h, tree1, heap1, vm.trees[root], heap, i);
      GrownOnly(mem1, vm.mem, used1, vm.pmm.Used(), tree1, vm.trees[root], PageUp(heap1), PageUp(heap1) + reached);
      RecordedSnoc(h, requests, i, vm.trees[root], heap, reached);
      h := History(h.spaces + [vm.trees[root]], h.heaps + [heap]);
    }
  }

  lemma GrownOnly(mem: Memory, mem': Memory, used: set<nat>, used': set<nat>, tree: Node, tree': Node, lo: nat, hi: nat)
    requires HeapGrown(mem, mem', used, used', tree, tree', lo, hi)
    ensures Grown(Space(tree), Space(tree'), lo, hi)
  {
  }

  /** Costs and fates of one call in round numbers. */
  lemma CallScarce(tree: Node, heap: nat, request: nat, heap': nat, free: nat, reached: nat, halted: bool)
    requires halted ==> Tears(tree, PageUp(heap), PageUp(request), free)
    requires !halted ==> BreakMoved(heap, request, heap', reached)
    requires !halted && PageUp(heap) + reached < PageUp(request) && request != 0 && request >= heap ==>
               StopsAt(tree, PageUp(heap), PageUp(request), free, PageUp(heap) + reached)
    ensures halted ==> free < 4 * (PageUp(request) - PageUp(heap))
    ensures Cost(tree, PageUp(heap), PageUp(heap) + reached) <= 4 * reached
    ensures !halted ==> heap <= heap' && PageUp(heap') <= PageUp(heap) + reached
    ensures !halted && heap' == heap && reached > 0 ==>
              Cost(tree, PageUp(heap), PageUp(heap) + reached) == free && PageUp(heap) + reached < PageUp(request)
    ensures !halted && heap' != heap ==> PageUp(heap) + reached == PageUp(heap')
  {
    hide PageUp, Cost;
    CostGrows(tree, PageUp(heap), PageUp(heap), PageUp(heap) + reached);
    CostNothing(tree, PageUp(heap));
    if halted {
      TearsShort(tree, PageUp(heap), PageUp(request), free);
    }
  }

  lemma NeverMovedStart(tree: Node, start: nat, requests: seq<nat>)
    requires BelowKept(tree, tree, PageUp(start))
    ensures NeverMoved(History([tree], [start]), tree, start, 0) && Recorded(History([tree], [start]), requests, 0)
  {
  }

  lemma ScarceMore(free: int, requests: seq<nat>, n: nat, n': nat, start: nat)
    requires n <= n' <= |requests| && Scarce(free, requests, n, start)
    ensures Scarce(free, requests, n', start)
  {
  }

  /** Frames run short only if a request asks for too many pages. */
  lemma ScarceNext(free0: int, free1: int, free: int, requests: seq<nat>, i: nat, start: nat, heap: nat, heap': nat,
                   reached: nat, halted: bool)
    requires i < |requests| && start <= heap
    requires free1 >= free0 - 4 * (PageUp(heap) - PageUp(start)) || Scarce(free0, requests, i, start)
    requires halted ==> free1 < 4 * (PageUp(requests[i]) - PageUp(heap))
    requires !halted ==> free >= free1 - 4 * reached
    requires !halted ==> if heap' == heap then (reached > 0 ==> free == 0 && PageUp(heap) + reached < PageUp(requests[i]))
                         else PageUp(heap) + reached == PageUp(heap')
    ensures halted ==> Scarce(free0, requests, i + 1, start)
    ensures !halted ==> free >= free0 - 4 * (PageUp(heap') - PageUp(start)) || Scarce(free0, requests, i + 1, start)
  {
    hide PageUp;
    if Scarce(free0, requests, i, start) {
      ScarceMore(free0, requests, i, i + 1, start);
    } else if halted || (heap' == heap && reached > 0) {
      assert free0 < 4 * (PageUp(requests[i]) - PageUp(start));
    }
  }

  /** No two pages of an address space share a frame. */
  ghost predicate FramesOwn(tree: Node) {
    forall p, q :: p in Space(tree) && q in Space(tree) && p != q ==> Space(tree)[p].index != Space(tree)[q].index
  }

  lemma PagesOwnFrames(mem: Memory, used: set<nat>, tree: Node)
    requires TreeOk(mem, used, tree)
    ensures FramesOwn(tree)
  {
    hide Space;
    forall p, q | p in Space(tree) && q in Space(tree) && p != q ensures Space(tree)[p].index != Space(tree)[q].index {
      OwnFrames(mem, used, tree, q);
    }
  }

  /** What load_elf_to_memory leaves in a fresh pagemap is an image whose heap is still empty. */
  lemma LoadedImage(mem: Memory, mem': Memory, used: set<nat>, used': set<nat>, tree: Node, tree': Node,
                    segs: seq<Segment>, data: seq<byte>, start: nat)
    requires LoadedSoFar(mem, mem', used, used', tree, tree', segs, data, |segs|) && start % PAGE == 0
    requires forall i :: 0 <= i < |segs| && segs[i].load ==> FirstPage(segs[i]) + PageCount(segs[i]) <= start / PAGE
    ensures ProcessImage(mem', used', tree', segs, data, start, start)
  {
    hide SegmentLoaded, Space;
    assert PageUp(start) == start / PAGE;
  }

  /** The page boundary behind the last segment. */
  ghost predicate HeapStart(segs: seq<Segment>, start: nat) {
    && start % PAGE == 0
    && (forall i :: 0 <= i < |segs| && segs[i].load ==> FirstPage(segs[i]) + PageCount(segs[i]) <= start / PAGE)
    && exists i :: 0 <= i < |segs| && segs[i].load && FirstPage(segs[i]) + PageCount(segs[i]) == start / PAGE
  }

  datatype ProgramEnd = Running(heap: nat) | Stopped

  /** Why a load can stop: overlapping segments, none at all, no run of frames for one, or fewer than four free frames for
      each page. */
  ghost predicate LoadFails(pmm: PhysicalMemory, mapped: set<nat>, free: int, segs: seq<Segment>)
    reads pmm.bitmap
  {
    || (exists i :: 0 <= i < |segs| && !Disjoint(mapped, segs, i))
    || (forall i :: 0 <= i < |segs| && segs[i].load ==> segs[i].vaddr + segs[i].memsz == 0)
    || (exists i :: 0 <= i < |segs| && segs[i].load && NoRoom(pmm, segs[i]))
    || free < 4 * TotalPages(segs, |segs|)
  }

  /** A program is loaded and then calls brk any number of times, below its stack: each of its segments reads as the
      file says, the heap is mapped up to the break, every page has a frame of its own, and nothing below a break moved
      after the call that set it. */
  method LoadThenBrk(vm: AddressSpaces, root: nat, segs: seq<Segment>, f: V.File, requests: seq<nat>)
    returns (end: ProgramEnd, ghost start: nat, ghost h: History)
    requires vm.Valid() && root in vm.trees
    requires forall i :: 0 <= i < |segs| && segs[i].load ==>
               WellFormed(segs[i], f) && segs[i].vaddr + segs[i].memsz <= STACK_BASE
    requires forall i :: 0 <= i < |requests| ==> requests[i] <= STACK_BASE
    modifies vm`mem, vm`trees, vm.pmm.bitmap, vm.pmm.bitmap.bytes
    ensures end.Running? ==>
              && vm.Valid() && root in vm.trees && f.backing.Regular? && HeapStart(segs, start)
              && ProcessImage(vm.mem, vm.pmm.Used(), vm.trees[root], segs, f.backing.data, start, end.heap)
              && FramesOwn(vm.trees[root]) && NeverMoved(h, vm.trees[root], end.heap, |requests|)
              && Recorded(h, requests, |requests|) && h.heaps[0] == start
              && Space(h.spaces[0]).Keys == Space(old(vm.trees)[root]).Keys + AllPages(segs, |segs|)
    ensures end.Stopped? ==>
              || LoadFails(vm.pmm, Space(old(vm.trees)[root]).Keys, |old(vm.pmm.Free())|, segs)
              || (HeapStart(segs, start) &&
                  Scarce(|old(vm.pmm.Free())| - 4 * TotalPages(segs, |segs|), requests, |requests|, start))
  {
    hide LoadedSoFar, ProcessImage, Separate, Space, PageUp, FirstPage, PageCount, BelowKept, FramesOwn, NeverMoved, Recorded, Disjoint,
         NoRoom, Scarce, AllPages, TotalPages, With;
    start, h := 0, History([], []);
    ghost var mem0, used0, tree0, free0 := vm.mem, vm.pmm.Used(), vm.trees[root], |vm.pmm.Free()|;
    var result := LoadBinarySegments(vm, root, segs, f);
    if result != Loaded {
      return Stopped, start, h;
    }
    ghost var loaded := vm.trees[root];
    var found, first := FindHeapStart(segs);
    if !found {
      return Stopped, start, h;
    }
    start := first;
    StartBelowStack(segs, first);
    LoadedPages(mem0, vm.mem, used0, vm.pmm.Used(), tree0, loaded, segs, f.backing.data);
    LoadedImage(mem0, vm.mem, used0, vm.pmm.Used(), tree0, loaded, segs, f.backing.data, first);
    ghost var free1 := |vm.pmm.Free()|;
    var halted, heap;
    halted, heap, h := BrkSession(vm, root, first, requests, segs, f.backing.data);
    if halted {
      ScarceLess(free0 - 4 * TotalPages(segs, |segs|), free1, requests, start);
      return Stopped, start, h;
    }
    RootHasFrame(vm.mem, vm.pmm.Used(), vm.trees, root);
    PagesOwnFrames(vm.mem, vm.pmm.Used(), vm.trees[root]);
    return Running(heap), start, h;
  }

  lemma ScarceLess(free: int, free': int, requests: seq<nat>, start: nat)
    requires free <= free' && Scarce(free', requests, |requests|, start)
    ensures Scarce(free, requests, |requests|, start)
  {
  }

  lemma LoadedPages(mem: Memory, mem': Memory, used: set<nat>, used': set<nat>, tree: Node, tree': Node,
                    segs: seq<Segment>, data: seq<byte>)
    requires LoadedSoFar(mem, mem', used, used', tree, tree', segs, data, |segs|)
    ensures Space(tree').Keys == Space(tree).Keys + AllPages(segs, |segs|)
  {
  }

  lemma StartBelowStack(segs: seq<Segment>, start: nat)
    requires start % PAGE == 0
    requires forall i :: 0 <= i < |segs| && segs[i].load ==> segs[i].vaddr + segs[i].memsz <= STACK_BASE
    requires exists i :: 0 <= i < |segs| && segs[i].load && FirstPage(segs[i]) + PageCount(segs[i]) == start / PAGE
    ensures start <= STACK_BASE
  {
    var i :| 0 <= i < |segs| && segs[i].load && FirstPage(segs[i]) + PageCount(segs[i]) == start / PAGE;
    var end := segs[i].vaddr + segs[i].memsz;
    assert start / PAGE == (end + PAGE - 1) / PAGE;
  }
}
