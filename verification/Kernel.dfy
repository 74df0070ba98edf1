/** Processes, address spaces and the kernel heap together: pm_fork clones the caller's pagemap, pm_wait deletes the one of
    the zombie it reaps, execve replaces it, brk grows it, a dispatch loads the pagemap of the process that is to run, and
    kmalloc and kfree take their frames from the same allocator. */
module Kernel {
  import opened Machine
  import opened Vfs
  import opened PageTables
  import opened WalkSpec
  import opened PhysBytes
  import opened Vmm
  import opened Loader
  import opened Brk
  import opened Programs
  import opened UserMemory
  import H = Heap
  import opened ProcSpec
  import opened ProcInv
  import opened TaskQueues
  import opened Processes
  import opened Books

  /** How execve ends: in the new program, with -1, or in a panic. */
  datatype ExecEnd = Switched | Failed | Crashed

  class System {
    const pm: ProcessManager
    const vm: AddressSpaces
    const heap: H.KernelHeap
    /** pagemap_hhdm_ptr of each process. */
    var roots: map<nat, nat>
    /** process_heap_ptr of each process. */
    var breaks: map<nat, nat>
    /** What the kernel has from kmalloc, with the sizes it asked for. */
    var held: map<nat, nat>
    /** Frames in use that no pagemap has. */
    ghost var kept: set<nat>

    /** Frames in use that neither a pagemap nor the heap has. */
    ghost function Rest(): set<nat>
      reads this, heap
    {
      RestOf(kept, heap.hhdm, heap.pages, heap.large)
    }

    /** Every process has a pagemap of its own, every frame in use is accounted for, and the pagemap in cr3 is that of the
        current process, so it is never one that was deleted. */
    ghost predicate Owned()
      reads this, pm, vm, vm.pmm.bitmap, vm.pmm.bitmap.bytes
    {
      && vm.Valid() && Owners(roots, pm.procs.Keys, vm.trees) && Accounted(vm.pmm.Used(), kept, vm.trees)
      && BreaksOk(breaks, pm.procs.Keys) && pm.curr in roots && roots[pm.curr] in vm.trees && pm.curr in breaks
      && vm.current == roots[pm.curr]
    }

    /** The heap as far as it does not depend on the allocator, and what the kernel holds is exactly what is handed out. */
    ghost predicate HeapShape()
      reads this, heap
    {
      && heap.pmm == vm.pmm && heap.hhdm > 0 && heap.hhdm % PAGE == 0 && heap.hhdm + heap.pmm.Frames() * PAGE <= TWO64
      && heap.Shape() && H.LargeHeaders(heap.hdr, heap.large)
      && H.Holds(heap.hdr, heap.live, heap.large, held) && H.Outstanding(heap.live, heap.large, held, {}, map[])
    }

    /** The heap's frames are in use and in no pagemap. */
    ghost predicate HeapOwned()
      reads this, heap, vm.pmm.bitmap
    {
      && H.Owned(heap.hhdm, vm.pmm.Used(), heap.pages, heap.large)
      && HeapApart(kept, heap.hhdm, heap.pages, heap.large)
    }

    ghost predicate Valid()
      reads this, pm, pm.ring, pm.ring.buffer, vm, heap, vm.pmm.bitmap, vm.pmm.bitmap.bytes
    {
      && pm.Valid() && Inv(pm.View()) && Owned() && HeapShape() && HeapOwned()
      && pm.ring.buffer as object != vm.pmm.bitmap.bytes as object
    }

    constructor (pm: ProcessManager, vm: AddressSpaces, heap: H.KernelHeap, root: nat, brk: nat, held: map<nat, nat>)
      requires pm.Valid() && Inv(pm.View()) && pm.procs.Keys == {1} && vm.Valid() && vm.trees.Keys == {root}
      requires pm.ring.buffer as object != vm.pmm.bitmap.bytes as object && pm.curr == 1 && vm.current == root
      requires heap.Valid() && heap.pmm == vm.pmm && brk <= STACK_BASE
      requires HeapApart(vm.pmm.Used() - Frames(vm.trees[root]), heap.hhdm, heap.pages, heap.large)
      requires H.Holds(heap.hdr, heap.live, heap.large, held) && H.Outstanding(heap.live, heap.large, held, {}, map[])
      ensures Valid() && this.pm == pm && this.vm == vm && this.heap == heap && this.held == held
      ensures roots == map[1 := root] && breaks == map[1 := brk] && kept == vm.pmm.Used() - Frames(vm.trees[root])
    {
      hide Inv, Separate, Owners, Accounted, Frames, Links, H.Owned, H.Holds, H.Outstanding, HeapApart;
      this.pm, this.vm, this.heap := pm, vm, heap;
      this.roots, this.breaks, this.held := map[1 := root], map[1 := brk], held;
      kept := vm.pmm.Used() - Frames(vm.trees[root]);
      new;
      StartOwned(vm.mem, vm.pmm.Used(), vm.trees, root);
    }

    lemma HeapValid()
      requires vm.Valid() && HeapShape() && HeapOwned()
      ensures heap.Valid()
    {
    }

    /** Any kmalloc and kfree calls of the kernel, up to the first that fails: pagemaps and processes are left alone, and
        only frames of the heap come and go. */
    method HeapWork(ops: seq<H.HeapOp>) returns (ok: bool, addrs: seq<nat>)
      requires Valid() && forall i :: 0 <= i < |ops| && ops[i].Malloc? ==> ops[i].size < TWO64
      modifies `held, `kept, heap, vm.pmm.bitmap, vm.pmm.bitmap.bytes
      ensures |addrs| <= |ops| && (ok <==> |addrs| == |ops|) && (!ok ==> ops[|addrs|].Malloc?)
      ensures H.NewEachTime(old(held), ops, addrs)
      ensures ok ==> Valid() && Rest() == old(Rest()) && held == H.Replay(old(held), ops, addrs, |ops|)
    {
      hide Inv, Separate, Owners, Accounted, Links, H.Owned, H.Holds, H.Outstanding, H.Others, HeapApart, RestOf,
           H.NewEachTime, BreaksOk;
      ghost var used0, pages0, large0 := vm.pmm.Used(), heap.pages, heap.large;
      HeapValid();
      held, addrs := heap.Session(ops, held, {}, map[]);
      ok := |addrs| == |ops|;
      if ok {
        HeapWorked(vm.mem, used0, vm.pmm.Used(), kept, vm.trees, heap.hhdm, pages0, large0, heap.pages, heap.large);
        kept := Unmapped(vm.pmm.Used(), vm.trees);
      }
    }

    /** The kernel writes into a block it has from kmalloc, through the direct map: no pagemap notices. */
    method OwnWrite(a: nat, data: seq<byte>)
      requires Valid() && a in held && |data| <= held[a]
      modifies vm`mem
      ensures Valid() && a >= heap.hhdm && Copied(old(vm.mem), vm.mem, a - heap.hhdm, data)
      ensures OnOwnFrames(old(vm.mem), vm.mem, vm.trees)
    {
      hide Inv, Separate, Owners, Accounted, Links, H.Owned, H.Holds, H.Outstanding, HeapApart, BreaksOk, H.LargeHeaders, InSpace,
           Copied, OnOwnFrames;
      ghost var mem0 := vm.mem;
      KeptInUse(vm.pmm.Used(), kept, vm.trees);
      BlockOutside(a, |data|);
      Memcpy(vm, a - heap.hhdm, data);
      KeysKept(mem0, vm.mem, a - heap.hhdm, data);
      OwnFramesOnly(mem0, vm.mem, kept, vm.pmm.Used(), vm.trees, a - heap.hhdm, data);
      OwnWritesSeparate(mem0, vm.mem, vm.pmm.Used(), vm.trees);
    }

    /** A block that is held lies in frames no pagemap has. */
    lemma BlockOutside(a: nat, n: nat)
      requires vm.Valid() && HeapShape() && HeapOwned() && a in held && n <= held[a] && kept <= vm.pmm.Used()
      ensures a >= heap.hhdm && Backed(vm.mem, a - heap.hhdm, n)
      ensures forall v: nat :: a - heap.hhdm <= v < a - heap.hhdm + n ==> PageOf(v) in kept
    {
      hide Separate, H.Owned, H.LargeHeaders, H.InHeap;
      assert H.Granted(heap.hdr, heap.live, heap.large, a, held[a]);
      BlockStart(a);
      forall v: nat | a - heap.hhdm <= v < a - heap.hhdm + n ensures PageOf(v) in kept && PageOf(v) in vm.mem {
        H.HeldInHeap(heap.hdr, heap.frees, heap.freeHead, heap.supers, heap.superHead, heap.live, heap.pages, heap.hhdm,
                     vm.pmm.Used(), heap.large, a, held[a], v + heap.hhdm - a);
        assert H.FrameOf(heap.hhdm, v + heap.hhdm) == PageOf(v);
      }
    }

    lemma BlockStart(a: nat)
      requires vm.Valid() && HeapShape() && HeapOwned() && a in held
      ensures a >= heap.hhdm
    {
      hide Separate, H.Owned, H.LargeHeaders;
      assert H.Granted(heap.hdr, heap.live, heap.large, a, held[a]);
      H.HeldAbove(heap.hdr, heap.frees, heap.freeHead, heap.supers, heap.superHead, heap.live, heap.pages, heap.hhdm,
                  vm.pmm.Used(), heap.large, a);
    }

    /** One kernel entry other than brk and an execve that finds its file; the kmalloc and kfree calls it makes are
        HeapWork, and what it writes into its blocks is OwnWrite. `clock` is the time gettimeofday stores. */
    method Enter(e: Event, clock: seq<byte>) returns (fate: Fate, regs: Regs, astray: bool, ghost mid: Memory)
      requires Valid() && Enabled(pm.View(), e) && (e.Syscall? ==> FreshFile(pm.View(), e.found, e.id))
      requires e.Syscall? ==> e.r.rax != 12 && (e.r.rax == 59 ==> e.entry.None?)
      modifies `roots, `breaks, pm, pm.ring, pm.ring.buffer, vm, vm.pmm.bitmap, vm.pmm.bitmap.bytes
      ensures astray <==> old(Astray(pm.View(), e, clock, vm.trees[roots[pm.curr]], |vm.pmm.Free()|))
      // An access to a page that is not there panics.
      ensures !astray ==>
                if Reachable(old(pm.View()), e, clock, old(vm.trees[roots[pm.curr]]))
                then Matches(Step(old(pm.View()), e), fate, pm.View(), regs)
                else fate == Fate.Panicked
      ensures !astray && fate == Done ==>
                && Valid()
                && EntryLaw(old(pm.View()), e, clock, regs.rax, old(vm.mem), mid, vm.mem, old(vm.pmm.Used()), vm.pmm.Used(),
                            old(vm.trees), vm.trees, old(roots), roots, old(breaks), breaks)
    {
      hide Inv, Step, Enabled, Separate, Owners, Accounted, Links, FreshFile, EntryLaw, TableLaw, BreaksOk, ReadData, Reachable,
           H.Owned, H.Holds, H.Outstanding, HeapApart, StoreOf, FetchOf, H.LargeHeaders, Strays, IsFork, Size, Frames, RestOf;
      ghost var s0, tree := pm.View(), vm.trees[roots[pm.curr]];
      var before, caller := pm.procs, pm.curr;
      Basics(s0);
      mid, regs, fate := vm.mem, pm.procs[pm.curr].saved, Done;
      astray := e.Syscall? && ReadOverruns(pm.procs, pm.curr, pm.files, e.r);
      if astray {
        return;
      }
      var fetch := Wanted(e, s0);
      var data;
      fate, regs, data := pm.Perform(e);
      if fate != Done {
        NothingStored(s0, e, clock, tree);
        return;
      }
      var stored;
      astray, stored, mid := Finish(e, before, caller, regs.rax, data, clock, fetch, s0);
      if !astray && !stored {
        fate := Fate.Panicked;
      }
    }

    /** The part of an entry that is about memory, once the process manager is done. */
    method Finish(e: Event, before: Procs, caller: nat, rax: nat, data: seq<byte>, clock: seq<byte>, fetch: Fetch,
                  ghost s0: State)
      returns (astray: bool, stored: bool, ghost mid: Memory)
      requires vm.Valid() && caller in roots && roots[caller] in vm.trees && vm.current == roots[caller]
      requires before == s0.procs && caller == s0.curr && caller in breaks && BreaksOk(breaks, before.Keys)
      requires Owners(roots, before.Keys, vm.trees) && Accounted(vm.pmm.Used(), kept, vm.trees)
      requires Inv(s0) && Enabled(s0, e) && data == ReadData(s0, e) && Inv(pm.View()) && fetch == FetchOf(s0, e)
      requires Step(s0, e).Next? && Step(s0, e).s == pm.View() && Step(s0, e).regs.rax == rax && HeapOwned()
      modifies `roots, `breaks, vm, vm.pmm.bitmap, vm.pmm.bitmap.bytes
      ensures astray <==>
                Strays(StoreOf(s0, e, clock), fetch) || (IsFork(e) && old(Size(vm.trees[roots[caller]]) > |vm.pmm.Free()|))
      ensures !astray ==> (stored <==> Reachable(s0, e, clock, old(vm.trees[roots[caller]])))
      ensures !astray && stored ==>
                && Owned() && HeapOwned()
                && EntryLaw(s0, e, clock, rax, old(vm.mem), mid, vm.mem, old(vm.pmm.Used()), vm.pmm.Used(), old(vm.trees),
                            vm.trees, old(roots), roots, old(breaks), breaks)
    {
      hide Inv, Step, Enabled, Separate, Owners, Accounted, MemoryLaw, TableLaw, BreaksAfter, BreaksOk, ReadData, StoredAt,
           CanStore, CanFetch, Size, StoreOf, FetchOf, Strays, H.Owned, HeapApart;
      ghost var used0 := vm.pmm.Used();
      mid, stored := vm.mem, false;
      var root := roots[caller];
      StepTable(s0, e);
      Basics(s0);
      Basics(pm.View());
      var store := Pending(e, before, rax, data, clock, s0);
      astray := Strays(store, fetch);
      if !astray && e.Syscall? && e.r.rax == 57 {
        astray := Starves(root);
      }
      if astray {
        return;
      }
      stored := Deliver(root, store, fetch);
      if stored {
        mid := vm.mem;
        Settle(e, before, caller, rax, s0);
        KeptInUse(vm.pmm.Used(), kept, vm.trees);
        HeapStillOwned(heap.hhdm, used0, vm.pmm.Used(), heap.pages, heap.large, kept);
      }
    }

    /** What is to be stored, once the process manager is done. */
    method Pending(e: Event, before: Procs, rax: nat, data: seq<byte>, clock: seq<byte>, ghost s0: State)
      returns (store: Store)
      requires Inv(s0) && Enabled(s0, e) && before == s0.procs && data == ReadData(s0, e)
      requires Step(s0, e).Next? && Step(s0, e).s == pm.View() && Step(s0, e).regs.rax == rax
      ensures store == StoreOf(s0, e, clock)
    {
      hide Inv, Step, Given, FirstZombie;
      if e.Syscall? && e.r.rax == 61 {
        WaitStore(s0, e);
      }
      if e.Syscall? && e.r.rax == 0 {
        return Store(e.r.rsi, data);
      } else if e.Syscall? && e.r.rax == 61 && e.r.rdi != 0 && rax in before && rax !in pm.procs {
        return Store(e.r.rdi, IntBytes(before[rax].status));
      } else if e.Syscall? && e.r.rax == 96 {
        return Store(e.r.rdi, clock);
      }
      return Store(0, []);
    }

    /** What is to be fetched, before the process manager works. */
    method Wanted(e: Event, ghost s0: State) returns (fetch: Fetch)
      requires s0 == pm.View() && pm.curr in pm.procs
      ensures fetch == FetchOf(s0, e)
    {
      if e.Syscall? && Writes(pm.procs, pm.curr, pm.files, e.r) {
        return Fetch(e.r.rsi, e.r.rdx);
      }
      return Fetch(0, 0);
    }

    /** Whether a clone of the pagemap needs more frames than are free. */
    method Starves(root: nat) returns (short: bool)
      requires vm.Valid() && root in vm.trees
      ensures short <==> Size(vm.trees[root]) > |vm.pmm.Free()|
    {
      hide Separate, Frames;
      SizeOfTree(vm.mem, vm.pmm.Used(), vm.trees, root);
      var free := vm.pmm.CountFree();
      var below := vm.CountFrames(root, TOP_LEVEL, vm.trees[root].kids);
      short := 1 + below > free;
    }

    method Deliver(root: nat, store: Store, fetch: Fetch) returns (ok: bool)
      requires vm.Valid() && root in vm.trees && !Strays(store, fetch)
      modifies vm`mem
      ensures ok <==> CanStore(vm.trees[root], store.addr, |store.data|) && CanFetch(vm.trees[root], fetch.addr, fetch.count)
      ensures ok ==> vm.Valid() && StoredAt(old(vm.mem), vm.mem, vm.trees[root], store.addr, store.data)
    {
      hide Separate, Space, StoredAt;
      ok := true;
      if fetch.count > 0 {
        ok := FetchUser(vm, root, fetch.addr, fetch.count);
      }
      if !ok {
        return;
      }
      if store.data == [] {
        StoredNothing(vm.mem, vm.trees[root], store.addr);
        return true;
      }
      ok := StoreUser(vm, root, store.addr, store.data);
    }

    /** What the entry means for memory, once the process table is up to date. */
    method Settle(e: Event, before: Procs, caller: nat, rax: nat, ghost s0: State)
      requires vm.Valid() && caller in roots && vm.current == roots[caller] && before == s0.procs && caller == s0.curr
      requires Owners(roots, before.Keys, vm.trees) && Accounted(vm.pmm.Used(), kept, vm.trees)
      requires BreaksOk(breaks, before.Keys) && caller in breaks
      requires TableLaw(s0, e, pm.View(), rax) && pm.curr in pm.procs
      requires IsFork(e) ==> roots[caller] in vm.trees && Size(vm.trees[roots[caller]]) <= |vm.pmm.Free()|
      modifies `roots, `breaks, vm, vm.pmm.bitmap, vm.pmm.bitmap.bytes
      ensures Owned()
      ensures MemoryLaw(s0, e, rax, old(vm.mem), vm.mem, old(vm.pmm.Used()), vm.pmm.Used(), old(vm.trees), vm.trees,
                        old(roots), roots)
      ensures breaks == BreaksAfter(s0, e, rax, old(breaks))
    {
      hide Separate, Owners, Accounted, ForkedSpace, DroppedSpace, BreaksOk;
      OwnedRoots(roots, before.Keys, vm.trees);
      BreaksSettled(s0, e, pm.View(), rax, breaks);
      if e.Syscall? && e.r.rax == 57 {
        CloneFor(caller, rax);
        breaks := breaks[rax := breaks[caller]];
      } else if e.Syscall? && e.r.rax == 61 && rax in before && rax !in pm.procs {
        DeleteOf(rax);
        breaks := breaks - {rax};
      }
      OwnedRoots(roots, roots.Keys, vm.trees);
      assert roots.Keys == pm.procs.Keys;
      BreakRead(breaks, pm.procs.Keys, pm.curr);
      vm.current := roots[pm.curr];
    }

    /** brk for requests below the stack; `halted` is the panic for want of a table. */
    method EnterBrk(r: Regs) returns (halted: bool, regs: Regs, ghost reached: nat)
      requires Valid() && !pm.idle && r.rax == 12 && r.rdi <= STACK_BASE
      modifies `breaks, `kept, pm, pm.ring, pm.ring.buffer, vm`mem, vm`trees, vm.pmm.bitmap, vm.pmm.bitmap.bytes
      ensures !halted ==> Valid() && pm.View() == old(pm.View())
      ensures !halted ==> breaks == old(breaks)[pm.curr := breaks[pm.curr]] && regs == UserSegments(r).(rax := breaks[pm.curr])
      ensures !halted ==>
                BrkLaw(old(vm.mem), vm.mem, old(vm.pmm.Used()), vm.pmm.Used(), old(vm.trees), vm.trees, old(Rest()), Rest(),
                       roots[pm.curr], old(breaks[pm.curr]), breaks[pm.curr], r.rdi, reached)
      ensures halted ==>
                Tears(old(vm.trees[roots[pm.curr]]), PageUp(old(breaks[pm.curr])), PageUp(r.rdi), |old(vm.pmm.Free())|)
    {
      hide Inv, Separate, Owners, Accounted, Links, PageUp, BrkLaw, Step, BreaksOk, H.Owned, H.Holds, H.Outstanding, HeapApart,
           RestOf, Tears, H.LargeHeaders;
      halted, reached := GrowHeap(r.rdi);
      regs := r;
      if !halted {
        OwnedRoots(roots, pm.procs.Keys, vm.trees);
        BreakRead(breaks, pm.procs.Keys, pm.curr);
        regs := Pass(BrkEvent(r, breaks[pm.curr]), r, breaks[pm.curr], None);
      }
    }

    method GrowHeap(request: nat) returns (halted: bool, ghost reached: nat)
      requires Owned() && HeapOwned() && request <= STACK_BASE
      modifies `breaks, `kept, vm`mem, vm`trees, vm.pmm.bitmap, vm.pmm.bitmap.bytes
      ensures !halted ==> Owned() && HeapOwned() && breaks == old(breaks)[pm.curr := breaks[pm.curr]]
      ensures !halted ==>
                BrkLaw(old(vm.mem), vm.mem, old(vm.pmm.Used()), vm.pmm.Used(), old(vm.trees), vm.trees, old(Rest()), Rest(),
                       roots[pm.curr], old(breaks[pm.curr]), breaks[pm.curr], request, reached)
      ensures halted ==>
                Tears(old(vm.trees[roots[pm.curr]]), PageUp(old(breaks[pm.curr])), PageUp(request), |old(vm.pmm.Free())|)
    {
      hide Separate, Owners, Accounted, PageUp, BrkLaw, HeapGrown, FramesOf, Space, BreaksOk, H.Owned, HeapApart, RestOf, Tears,
           StopsAt, BreakMoved;
      ghost var mem0, used0, trees0 := vm.mem, vm.pmm.Used(), vm.trees;
      OwnedRoots(roots, pm.procs.Keys, vm.trees);
      BreakRead(breaks, pm.procs.Keys, pm.curr);
      var root, heapEnd := roots[pm.curr], breaks[pm.curr];
      var heapEnd', rax;
      halted, heapEnd', rax, reached := BrkHandler(vm, root, heapEnd, request);
      if halted {
        return;
      }
      GrownAccounts(mem0, vm.mem, used0, vm.pmm.Used(), kept, trees0, vm.trees, root, heapEnd, heapEnd', request, reached,
                    heap.hhdm, heap.pages, heap.large);
      OwnersSame(roots, pm.procs.Keys, trees0, vm.trees);
      kept := kept + FramesOf(Space(trees0[root]), PageUp(heapEnd), PageUp(heapEnd) + reached);
      KeptInUse(vm.pmm.Used(), kept, vm.trees);
      HeapStillOwned(heap.hhdm, used0, vm.pmm.Used(), heap.pages, heap.large, kept);
      BreakSet(breaks, pm.procs.Keys, pm.curr, heapEnd');
      breaks := breaks[pm.curr := heapEnd'];
    }

    /** The part of brk and execve that is about the process: nothing but registers. */
    method Pass(e: Event, r: Regs, result: u64, entry: Option<u64>) returns (regs: Regs)
      requires pm.Valid() && Inv(pm.View()) && !pm.idle
      requires (r.rax == 12 && e == BrkEvent(r, result)) || (r.rax == 59 && e == ExecEvent(r, entry))
      modifies pm, pm.ring, pm.ring.buffer
      ensures pm.Valid() && pm.View() == old(pm.View()) && Next(pm.View(), regs) == Step(old(pm.View()), e)
      ensures regs == if r.rax == 12 then UserSegments(r).(rax := result) else AfterExec(UserSegments(r), entry)
    {
      hide Inv, Links, Step, ReadData;
      Basics(pm.View());
      Stays(pm.View(), r, result, entry);
      var fate, data;
      fate, regs, data := pm.Perform(e);
    }

    /** execve of a program whose headers are `segs`. The caller gets a new address space with the program, its stack and an
        empty heap, and starts at the entry point; the frames of the old one go back; no other process is touched. A program
        without an entry point fails with -1, and every address space is as it was. Crashed is a panic. */
    method Execve(r: Regs, segs: seq<Segment>, f: File, entry: u64) returns (end: ExecEnd, regs: Regs)
      requires Valid() && !pm.idle && r.rax == 59
      requires forall i :: 0 <= i < |segs| && segs[i].load ==>
                 WellFormed(segs[i], f) && segs[i].vaddr + segs[i].memsz <= STACK_BASE
      modifies `roots, `breaks, pm, pm.ring, pm.ring.buffer, vm, vm.pmm.bitmap, vm.pmm.bitmap.bytes
      ensures end != Crashed ==> Valid() && pm.View() == old(pm.View()) && (end == Failed <==> entry == 0)
      ensures end == Failed ==> regs == UserSegments(r).(rax := TWO64 - 1)
      // It starts at the entry point, on a page of stack it may use.
      ensures end == Switched ==>
                && regs.rip == entry && regs.rcx == entry && regs.r11 == 0x202 && regs.rax == 0 && regs.rsp >= PAGE
                && regs == UserSegments(r).(rip := entry, rcx := entry, rsp := regs.rsp, r11 := 0x202, rax := 0)
                && UserMay(vm.mem, roots[pm.curr], regs.rsp - PAGE, PAGE)
                && CanStore(vm.trees[roots[pm.curr]], regs.rsp - PAGE, PAGE)
      ensures end == Switched ==>
                && f.backing.Regular? && roots == old(roots)[pm.curr := roots[pm.curr]]
                && breaks == old(breaks)[pm.curr := breaks[pm.curr]]
                && ExecLaw(old(vm.mem), vm.mem, old(vm.pmm.Used()), vm.pmm.Used(), old(vm.trees), vm.trees,
                           old(roots[pm.curr]), roots[pm.curr], segs, f.backing.data, breaks[pm.curr])
      ensures end == Failed ==>
                && roots == old(roots) && breaks == old(breaks)
                && Undone(old(vm.mem), vm.mem, old(vm.pmm.Used()), vm.pmm.Used(), old(vm.trees), vm.trees)
      ensures end == Crashed ==> LoadFails(vm.pmm, {}, |old(vm.pmm.Free())| - 5, segs)
    {
      hide Inv, Separate, Owners, Accounted, ExecLaw, Undone, Links, LoadFails, WellFormed, Step, BreaksOk, H.Owned, H.Holds,
           H.Outstanding, HeapApart, H.LargeHeaders, UserMay, CanStore;
      end := SwapImage(segs, f, entry);
      regs := r;
      if end != Crashed {
        var start := if entry == 0 then None else Some(entry);
        regs := Pass(ExecEvent(r, start), r, 0, start);
        if end == Switched {
          ExecStack(old(vm.mem), vm.mem, old(vm.pmm.Used()), vm.pmm.Used(), old(vm.trees), vm.trees, old(roots[pm.curr]),
                    roots[pm.curr], segs, f.backing.data, breaks[pm.curr]);
        }
      }
    }

    /** The part of execve that is about memory. */
    method SwapImage(segs: seq<Segment>, f: File, entry: u64) returns (end: ExecEnd)
      requires Owned() && HeapOwned()
      requires forall i :: 0 <= i < |segs| && segs[i].load ==>
                 WellFormed(segs[i], f) && segs[i].vaddr + segs[i].memsz <= STACK_BASE
      modifies `roots, `breaks, vm, vm.pmm.bitmap, vm.pmm.bitmap.bytes
      ensures end != Crashed ==> Owned() && HeapOwned() && (end == Failed <==> entry == 0)
      ensures end == Switched ==>
                && f.backing.Regular? && roots == old(roots)[pm.curr := roots[pm.curr]]
                && breaks == old(breaks)[pm.curr := breaks[pm.curr]]
                && ExecLaw(old(vm.mem), vm.mem, old(vm.pmm.Used()), vm.pmm.Used(), old(vm.trees), vm.trees,
                           old(roots[pm.curr]), roots[pm.curr], segs, f.backing.data, breaks[pm.curr])
      ensures end == Failed ==>
                && roots == old(roots) && breaks == old(breaks)
                && Undone(old(vm.mem), vm.mem, old(vm.pmm.Used()), vm.pmm.Used(), old(vm.trees), vm.trees)
      ensures end == Crashed ==> LoadFails(vm.pmm, {}, |old(vm.pmm.Free())| - 5, segs)
    {
      hide Separate, Owners, Accounted, ExecLaw, Undone, LoadFails, WellFormed, ProgramImage, Frames, Fresh, BreaksOk, H.Owned,
           HeapApart, DroppedSpace;
      ghost var mem0, used0, trees0 := vm.mem, vm.pmm.Used(), vm.trees;
      OwnedRoots(roots, pm.procs.Keys, vm.trees);
      RootIsTable(vm.mem, vm.pmm.Used(), vm.trees, roots[pm.curr]);
      var ok, root, heapEnd := BuildImage(vm, segs, f, false);
      if !ok {
        return Crashed;
      }
      if entry == 0 {
        Abandon(root, mem0, used0, trees0);
        AllUndone(mem0, vm.mem, used0, vm.pmm.Used(), trees0, vm.trees);
        return Failed;
      }
      Commit(root, heapEnd, mem0, used0, trees0, segs, f.backing.data);
      end := Switched;
    }

    /** The failure path of execve. */
    method Abandon(root: nat, ghost mem0: Memory, ghost used0: set<nat>, ghost trees0: map<nat, Node>)
      requires vm.Valid() && root !in trees0 && root in vm.trees && vm.trees == With(trees0, root, vm.trees[root])
      requires Fresh(mem0, vm.mem, used0, vm.pmm.Used(), vm.trees[root])
      modifies vm`mem, vm`trees, vm.pmm.bitmap, vm.pmm.bitmap.bytes
      ensures vm.Valid() && Undone(mem0, vm.mem, used0, vm.pmm.Used(), trees0, vm.trees)
    {
      hide Separate, Frames, Fresh, DroppedSpace, Undone;
      ghost var mem1, used1, trees1 := vm.mem, vm.pmm.Used(), vm.trees;
      vm.DeletePagemap(root);
      BuiltInVain(mem0, mem1, vm.mem, used0, used1, vm.pmm.Used(), trees0, trees1, vm.trees, root);
    }

    /** The switch to the new address space. */
    method Commit(root: nat, heapEnd: nat, ghost mem0: Memory, ghost used0: set<nat>, ghost trees0: map<nat, Node>,
                  ghost segs: seq<Segment>, ghost data: seq<byte>)
      requires vm.Valid() && root !in trees0 && root in vm.trees && vm.trees == With(trees0, root, vm.trees[root])
      requires Owners(roots, pm.procs.Keys, trees0) && Accounted(used0, kept, trees0) && Separate(mem0, used0, trees0)
      requires BreaksOk(breaks, pm.procs.Keys) && pm.curr in roots && roots[pm.curr] in trees0 && pm.curr in breaks
      requires H.Owned(heap.hhdm, used0, heap.pages, heap.large) && HeapApart(kept, heap.hhdm, heap.pages, heap.large)
      requires Fresh(mem0, vm.mem, used0, vm.pmm.Used(), vm.trees[root]) && heapEnd <= STACK_BASE
      requires ProgramImage(vm.mem, vm.pmm.Used(), vm.trees[root], segs, data, heapEnd)
      modifies `roots, `breaks, vm, vm.pmm.bitmap, vm.pmm.bitmap.bytes
      ensures Owned() && HeapOwned()
      ensures roots == old(roots)[pm.curr := root] && breaks == old(breaks)[pm.curr := heapEnd]
      ensures ExecLaw(mem0, vm.mem, used0, vm.pmm.Used(), trees0, vm.trees, old(roots[pm.curr]), root, segs, data, heapEnd)
    {
      hide Separate, Owners, Accounted, ExecLaw, ProgramImage, Frames, Fresh, BreaksOk, H.Owned, HeapApart;
      OwnedRoots(roots, pm.procs.Keys, trees0);
      FreshAccounts(mem0, vm.mem, used0, vm.pmm.Used(), kept, trees0, vm.trees, root);
      vm.current := root;
      Retire(roots[pm.curr], root, mem0, used0, trees0, segs, data, heapEnd);
      OwnersMove(roots, pm.procs.Keys, trees0, vm.trees, pm.curr, root);
      KeptInUse(vm.pmm.Used(), kept, vm.trees);
      HeapStillOwned(heap.hhdm, used0, vm.pmm.Used(), heap.pages, heap.large, kept);
      BreakSet(breaks, pm.procs.Keys, pm.curr, heapEnd);
      roots, breaks := roots[pm.curr := root], breaks[pm.curr := heapEnd];
    }

    /** Deleting the caller's old pagemap once the new one is in cr3. */
    method Retire(former: nat, root: nat, ghost mem0: Memory, ghost used0: set<nat>, ghost trees0: map<nat, Node>,
                  ghost segs: seq<Segment>, ghost data: seq<byte>, ghost heapEnd: nat)
      requires vm.Valid() && former in trees0 && root !in trees0 && root in vm.trees
      requires vm.trees == With(trees0, root, vm.trees[root])
      requires Fresh(mem0, vm.mem, used0, vm.pmm.Used(), vm.trees[root]) && Accounted(vm.pmm.Used(), kept, vm.trees)
      requires ProgramImage(vm.mem, vm.pmm.Used(), vm.trees[root], segs, data, heapEnd) && Frames(trees0[former]) <= used0
      modifies vm`mem, vm`trees, vm.pmm.bitmap, vm.pmm.bitmap.bytes
      ensures vm.Valid() && Accounted(vm.pmm.Used(), kept, vm.trees) && vm.trees.Keys == trees0.Keys - {former} + {root}
      ensures ExecLaw(mem0, vm.mem, used0, vm.pmm.Used(), trees0, vm.trees, former, root, segs, data, heapEnd)
    {
      hide Separate, Accounted, ProgramImage, DroppedSpace, Frames, Fresh, Replaced;
      ghost var mem1, used1, trees1 := vm.mem, vm.pmm.Used(), vm.trees;
      vm.DeletePagemap(former);
      DroppedTrees(mem1, vm.mem, used1, vm.pmm.Used(), trees1, vm.trees, former);
      ImageAfterDelete(mem1, vm.mem, used1, vm.pmm.Used(), trees1, vm.trees, former, root, segs, data, heapEnd);
      AccountedReap(mem1, vm.mem, used1, vm.pmm.Used(), kept, trees1, vm.trees, former);
      ReplacedBy(mem0, mem1, vm.mem, used0, used1, vm.pmm.Used(), trees1, vm.trees, former, root);
    }

    /** The part of pm_fork that is about memory. */
    method CloneFor(parent: nat, c: nat)
      requires vm.Valid() && parent in roots && roots[parent] in vm.trees && c !in roots && vm.current == roots[parent]
      requires Owners(roots, roots.Keys, vm.trees) && Accounted(vm.pmm.Used(), kept, vm.trees)
      requires Size(vm.trees[roots[parent]]) <= |vm.pmm.Free()|
      modifies `roots, vm`mem, vm`trees, vm.pmm.bitmap, vm.pmm.bitmap.bytes
      ensures vm.Valid() && c in roots && roots == old(roots)[c := roots[c]]
      ensures Owners(roots, roots.Keys, vm.trees) && Accounted(vm.pmm.Used(), kept, vm.trees)
      ensures ForkedSpace(old(vm.mem), vm.mem, old(vm.pmm.Used()), vm.pmm.Used(), old(vm.trees), vm.trees,
                          old(roots)[parent], roots[c])
    {
      hide Separate, ForkedSpace, Owners, Accounted, KernelHalf;
      ghost var mem0, used0, trees0 := vm.mem, vm.pmm.Used(), vm.trees;
      RootIsTable(vm.mem, vm.pmm.Used(), vm.trees, roots[parent]);
      var copy := vm.ClonePagemap(roots[parent]);
      ForkedTrees(mem0, vm.mem, used0, vm.pmm.Used(), trees0, vm.trees, roots[parent], copy);
      OwnersFork(roots, roots.Keys, trees0, vm.trees, c, copy);
      AccountedAdded(used0, vm.pmm.Used(), kept, trees0, vm.trees, copy);
      assert roots[c := copy].Keys == roots.Keys + {c};
      roots := roots[c := copy];
    }

    /** The part of pm_wait that is about memory. */
    method DeleteOf(z: nat)
      requires vm.Valid() && z in roots && roots[z] in vm.trees
      requires Owners(roots, roots.Keys, vm.trees) && Accounted(vm.pmm.Used(), kept, vm.trees)
      modifies `roots, vm`mem, vm`trees, vm.pmm.bitmap, vm.pmm.bitmap.bytes
      ensures vm.Valid() && roots == old(roots) - {z}
      ensures Owners(roots, roots.Keys, vm.trees) && Accounted(vm.pmm.Used(), kept, vm.trees)
      ensures DroppedSpace(old(vm.mem), vm.mem, old(vm.pmm.Used()), vm.pmm.Used(), old(vm.trees), vm.trees, old(roots)[z])
    {
      hide Separate, DroppedSpace, Owners, Accounted;
      ghost var mem0, used0, trees0 := vm.mem, vm.pmm.Used(), vm.trees;
      vm.DeletePagemap(roots[z]);
      DroppedTrees(mem0, vm.mem, used0, vm.pmm.Used(), trees0, vm.trees, roots[z]);
      OwnersReap(roots, roots.Keys, trees0, z);
      AccountedReap(mem0, vm.mem, used0, vm.pmm.Used(), kept, trees0, vm.trees, roots[z]);
      assert (roots - {z}).Keys == roots.Keys - {z};
      roots := roots - {z};
    }
  }

  /** The part of init_process_manager that starts init: its program in the first pagemap, and the process itself. */
  method StartInit(vm: AddressSpaces, heap: H.KernelHeap, held: map<nat, nat>, segs: seq<Segment>, f: File, entry: u64,
                   r: Regs, tty: nat, image: nat) returns (ok: bool, sys: System?, rip: u64, rsp: u64)
    requires vm.Valid() && vm.trees == map[] && IsTable(vm.mem, vm.current) && tty != 0 && image != 0 && tty != image
    requires heap.Valid() && heap.pmm == vm.pmm
    requires H.Holds(heap.hdr, heap.live, heap.large, held) && H.Outstanding(heap.live, heap.large, held, {}, map[])
    requires forall i :: 0 <= i < |segs| && segs[i].load ==>
               WellFormed(segs[i], f) && segs[i].vaddr + segs[i].memsz <= STACK_BASE
    modifies vm, vm.pmm.bitmap, vm.pmm.bitmap.bytes
    ensures ok ==> sys != null && fresh(sys) && fresh(sys.pm) && fresh(sys.pm.ring) && fresh(sys.pm.ring.buffer)
    ensures ok ==> sys != null && sys.vm == vm && sys.heap == heap && sys.Valid() && f.backing.Regular?
    ensures ok ==> sys.pm.View() == Boot(tty, image, f, r) && sys.kept == old(vm.pmm.Used()) && sys.held == held
    ensures ok ==> ProgramImage(vm.mem, vm.pmm.Used(), vm.trees[vm.current], segs, f.backing.data, sys.breaks[sys.pm.curr])
    // It is jumped to at its entry point, on a page of stack it may use.
    ensures ok ==> rip == entry && rsp >= PAGE && UserMay(vm.mem, vm.current, rsp - PAGE, PAGE)
    ensures !ok ==> entry == 0 || LoadFails(vm.pmm, {}, |old(vm.pmm.Free())| - 5, segs)
  {
    hide Inv, Separate, Owners, Accounted, Links, LoadFails, WellFormed, ProgramImage, Frames, Boot, H.Owned, H.Holds,
         H.Outstanding, HeapApart, H.LargeHeaders, UserMay, CanStore;
    sys, rip, rsp := null, entry, USER_STACK_PTR;
    var root, heapEnd;
    ok, root, heapEnd := InitImage(vm, heap, segs, f);
    ok := ok && entry != 0;
    if ok {
      var pm := new ProcessManager(r, tty, image, f);
      BootProcs(tty, image, f, r);
      sys := new System(pm, vm, heap, root, heapEnd, held);
    }
  }

  /** init's address space, which the processor then uses. */
  method InitImage(vm: AddressSpaces, heap: H.KernelHeap, segs: seq<Segment>, f: File)
    returns (ok: bool, root: nat, heapEnd: nat)
    requires vm.Valid() && vm.trees == map[] && IsTable(vm.mem, vm.current) && heap.Valid() && heap.pmm == vm.pmm
    requires forall i :: 0 <= i < |segs| && segs[i].load ==>
               WellFormed(segs[i], f) && segs[i].vaddr + segs[i].memsz <= STACK_BASE
    modifies vm, vm.pmm.bitmap, vm.pmm.bitmap.bytes
    ensures ok ==> vm.Valid() && heap.Valid() && vm.trees.Keys == {root} && vm.current == root && heapEnd <= STACK_BASE
    ensures ok ==> vm.pmm.Used() - Frames(vm.trees[root]) == old(vm.pmm.Used())
    ensures ok ==> HeapApart(old(vm.pmm.Used()), heap.hhdm, heap.pages, heap.large) && f.backing.Regular?
    ensures ok ==> ProgramImage(vm.mem, vm.pmm.Used(), vm.trees[root], segs, f.backing.data, heapEnd)
    ensures ok ==> UserMay(vm.mem, root, USER_STACK_PTR - PAGE, PAGE)
    ensures !ok ==> LoadFails(vm.pmm, {}, |old(vm.pmm.Free())| - 5, segs)
  {
    hide Separate, LoadFails, WellFormed, ProgramImage, Frames, H.Owned, HeapApart, H.LargeHeaders, UserMay, CanStore;
    ghost var used0 := vm.pmm.Used();
    HeapAtBoot(heap.hhdm, used0, heap.pages, heap.large);
    ok, root, heapEnd := BuildImage(vm, segs, f, true);
    if ok {
      vm.current := root;
      StackReady(vm.mem, vm.pmm.Used(), vm.trees, root, segs, f.backing.data, heapEnd);
      HeapStillOwned(heap.hhdm, used0, vm.pmm.Used(), heap.pages, heap.large, used0);
      assert vm.pmm.Used() - Frames(vm.trees[root]) == used0;
    }
  }

  lemma AllUndone(mem: Memory, mem': Memory, used: set<nat>, used': set<nat>, trees: map<nat, Node>, trees': map<nat, Node>)
    requires Undone(mem, mem', used, used', trees, trees')
    ensures trees' == trees && used' == used
  {
  }

  lemma ExecStack(mem: Memory, mem': Memory, used: set<nat>, used': set<nat>, trees: map<nat, Node>, trees': map<nat, Node>,
                  former: nat, root: nat, segs: seq<Segment>, data: seq<byte>, heap: nat)
    requires ExecLaw(mem, mem', used, used', trees, trees', former, root, segs, data, heap) && Separate(mem', used', trees')
    ensures UserMay(mem', root, USER_STACK_PTR - PAGE, PAGE) && CanStore(trees'[root], USER_STACK_PTR - PAGE, PAGE)
  {
    hide ProgramImage, Replaced, Separate, UserMay, CanStore;
    StackReady(mem', used', trees', root, segs, data, heap);
  }

  lemma HeapAtBoot(hhdm: nat, used: set<nat>, pages: set<nat>, large: map<nat, nat>)
    requires H.Owned(hhdm, used, pages, large)
    ensures HeapApart(used, hhdm, pages, large)
  {
    hide H.Owned, H.InHeap;
    forall f | H.InHeap(hhdm, pages, large, f) ensures f in used {
      H.HeapInUse(hhdm, used, pages, large, f);
    }
  }

  lemma BootProcs(tty: nat, image: nat, f: File, r: Regs)
    requires tty != 0 && image != 0 && tty != image
    ensures Boot(tty, image, f, r).procs.Keys == {1} && Boot(tty, image, f, r).curr == 1
  {
  }

  /** An entry that does not complete stores nothing. */
  lemma NothingStored(s: State, e: Event, clock: seq<byte>, tree: Node)
    requires Inv(s) && Enabled(s, e) && !Step(s, e).Next? && (e.Syscall? ==> FreshFile(s, e.found, e.id))
    ensures Reachable(s, e, clock, tree)
  {
    hide Space;
    StoreThenNext(s, e, clock);
  }
}
