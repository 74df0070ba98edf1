/** What a system call leaves in the memory of its caller, seen from the program. */
module KernelViews {
  import opened Machine
  import opened PageTables
  import opened CloneSpec
  import opened WalkSpec
  import opened Vmm
  import opened Loader
  import opened Brk
  import opened UserMemory
  import opened ProcSpec
  import opened ProcInv
  import opened ProcRuns
  import opened ProcCalls
  import opened ProcStreams
  import opened Books
  import opened KernelRuns

  /** Frames of another address space do not show in this one. */
  lemma ReadsKept(mem: Memory, mem': Memory, used: set<nat>, tree: Node, changed: set<nat>, v: nat)
    requires TreeOk(mem, used, tree) && OnlyIn(mem, mem', changed) && changed !! Frames(tree)
    ensures ReadVirtual(mem, tree, v).Some? ==> ReadVirtual(mem', tree, v) == ReadVirtual(mem, tree, v)
  {
    hide Space, TreeOk, Frames, Tables;
    if v / PAGE in Space(tree) {
      OwnFrames(mem, used, tree, v / PAGE);
    }
  }

  /** The result of a call. */
  ghost function Result(s: State, e: Event): nat {
    if Enabled(s, e) && Step(s, e).Next? then Step(s, e).regs.rax else 0
  }

  /** What the current process reads at an address. */
  ghost function Sees(a: Snap, v: nat): Option<byte> {
    if a.s.curr in a.roots && a.roots[a.s.curr] in a.trees then ReadVirtual(a.mem, a.trees[a.roots[a.s.curr]], v) else None
  }

  /** A read only fills its buffer. */
  lemma ReadStores(a: Snap, e: Event, clock: seq<byte>, b: Snap)
    requires Sane(a) && Law(a, Trap(e, clock), b) && IsCall(a.s, e, 0)
    ensures StoredAt(a.mem, b.mem, Tree(a), e.r.rsi, Given(a.s, e.r)) && b.trees == a.trees && b.roots == a.roots
  {
    hide Sane, Step, Enabled, Given, StoredAt, BreaksAfter, DroppedSpace, ForkedSpace;
    var mid :| KernelRuns.Entered(a, e, clock, b, mid);
  }

  lemma Filled(mem: Memory, mem': Memory, tree: Node, addr: nat, data: seq<byte>, given: seq<byte>, from: nat, n: nat)
    requires StoredAt(mem, mem', tree, addr, given) && from + n <= |data| && given == data[from..from + n]
    ensures forall v: nat :: ReadVirtual(mem', tree, v) ==
              if addr <= v < addr + n then Some(data[from + v - addr]) else ReadVirtual(mem, tree, v)
  {
    hide ReadVirtual;
  }

  /** After a read of a FAT12 file the caller's buffer holds the file's bytes from its position on, and the rest of its memory is
      as before. */
  lemma ReadArrives(a: Snap, e: Event, clock: seq<byte>, b: Snap, f: nat, v: nat)
    requires e.Syscall? && f in a.s.files && Whole(a.s.files[f]) && NoWrap(a.s, e, f)
    requires Law(a, Trap(e, clock), b) && CallOn(a.s, e, 0, f)
    ensures var file, n := a.s.files[f], Result(a.s, e);
            && file.position + n <= file.size && f in b.s.files && b.s.files[f].position == file.position + n
            && Sees(b, v) == if e.r.rsi <= v < e.r.rsi + n then Some(file.backing.data[file.position + v - e.r.rsi])
                             else Sees(a, v)
  {
    hide Inv, Separate, Owners, BreaksOk, Step, Enabled, Given, ReadVirtual, StoredAt, FileSet;
    ReadMeaning(a.s, e, f);
    ReadStores(a, e, clock, b);
    var file, n := a.s.files[f], Step(a.s, e).regs.rax;
    Filled(a.mem, b.mem, Tree(a), e.r.rsi, file.backing.data, Given(a.s, e.r), file.position, n);
  }

  /** Four bytes as the current process reads them. */
  ghost function WordAt(a: Snap, addr: nat): Option<nat> {
    var (b0, b1, b2, b3) := (Sees(a, addr), Sees(a, addr + 1), Sees(a, addr + 2), Sees(a, addr + 3));
    if b0.None? || b1.None? || b2.None? || b3.None? then None
    else Some(b0.value as int + 256 * b1.value as int + 65536 * b2.value as int + 16777216 * b3.value as int)
  }

  /** The call is a wait, with a pointer for the status, that takes p out of the table. */
  ghost predicate Reaped(a: Snap, e: Event, clock: seq<byte>, b: Snap, p: nat) {
    && Law(a, Trap(e, clock), b) && IsCall(a.s, e, 61) && e.r.rdi != 0 && p in a.s.procs && p !in b.s.procs
  }

  lemma ReapedPid(a: Snap, e: Event, clock: seq<byte>, b: Snap, p: nat)
    requires Reaped(a, e, clock, b, p)
    ensures Result(a.s, e) == p && p != a.s.curr && b.s.curr == a.s.curr && Reaps(a.s, e)
    ensures FirstZombie(a.s.procs, a.s.curr, 0) == Some(p)
  {
    hide Inv, Separate, Owners, BreaksOk, Step, Enabled, FirstZombie, ZombieChild, KernelRuns.Entered;
    StepTable(a.s, e);
    WaitStore(a.s, e);
  }

  /** What wait does to memory when it reaps. */
  lemma WaitStores(a: Snap, e: Event, clock: seq<byte>, b: Snap, p: nat) returns (mid: Memory)
    requires e.Syscall? && Sane(a) && p in a.s.procs && Reaped(a, e, clock, b, p)
    ensures p in a.roots && b.roots == a.roots - {p}
    ensures StoredAt(a.mem, mid, Tree(a), e.r.rdi, IntBytes(a.s.procs[p].status))
    ensures DroppedSpace(mid, b.mem, a.used, b.used, a.trees, b.trees, a.roots[p])
  {
    hide Inv, Separate, Owners, BreaksOk, Step, Enabled, FirstZombie, IntBytes, StoredAt, DroppedSpace, ForkedSpace, BreaksAfter,
         Reaps;
    ReapedPid(a, e, clock, b, p);
    mid :| KernelRuns.Entered(a, e, clock, b, mid);
  }

  /** wait leaves the status of the process it reaps, as four bytes, where its caller asked for it. */
  lemma WaitWrites(a: Snap, e: Event, clock: seq<byte>, b: Snap, p: nat)
    requires e.Syscall? && p in a.s.procs && Reaped(a, e, clock, b, p)
    ensures Result(a.s, e) == p && WordAt(b, e.r.rdi) == Some(a.s.procs[p].status % TWO32)
  {
    hide Inv, Separate, Owners, BreaksOk, Step, Enabled, ReadVirtual, DroppedSpace, IntBytes, StoredAt, KernelRuns.Entered;
    var mid := WaitStores(a, e, clock, b, p);
    ReapedPid(a, e, clock, b, p);
    var store := IntBytes(a.s.procs[p].status);
    Survives(a, mid, b, p, e.r.rdi, store);
    Arrives(a.mem, mid, Tree(a), e.r.rdi, store, 0);
    Arrives(a.mem, mid, Tree(a), e.r.rdi, store, 1);
    Arrives(a.mem, mid, Tree(a), e.r.rdi, store, 2);
    Arrives(a.mem, mid, Tree(a), e.r.rdi, store, 3);
  }

  lemma Arrives(mem: Memory, mem': Memory, tree: Node, addr: nat, data: seq<byte>, k: nat)
    requires StoredAt(mem, mem', tree, addr, data) && k < |data|
    ensures ReadVirtual(mem', tree, addr + k) == Some(data[k])
  {
    hide ReadVirtual;
  }

  /** Reaping another process leaves the caller's memory alone. */
  lemma Survives(a: Snap, mid: Memory, b: Snap, p: nat, addr: nat, data: seq<byte>)
    requires Sane(a) && Sane(b) && p in a.roots && p != a.s.curr && b.s.curr == a.s.curr && b.roots == a.roots - {p}
    requires StoredAt(a.mem, mid, Tree(a), addr, data)
    requires DroppedSpace(mid, b.mem, a.used, b.used, a.trees, b.trees, a.roots[p])
    ensures Tree(b) == Tree(a)
    ensures forall v: nat :: ReadVirtual(mid, Tree(a), v).Some? ==> ReadVirtual(b.mem, Tree(a), v) == ReadVirtual(mid, Tree(a), v)
  {
    hide Inv, Separate, BreaksOk, ReadVirtual, Frames, Tables, TreeOk, OnlyIn, KernelHalf;
    OwnRoot(a.roots, a.s.procs.Keys, a.trees, p, a.s.curr);
    StillSeparate(a.mem, mid, a.used, a.trees, a.roots[a.s.curr]);
    RootHasFrame(mid, a.used, a.trees, a.roots[a.s.curr]);
    Apart(mid, a.used, a.trees, a.roots[p], a.roots[a.s.curr]);
    forall v: nat
      ensures ReadVirtual(mid, Tree(a), v).Some? ==> ReadVirtual(b.mem, Tree(a), v) == ReadVirtual(mid, Tree(a), v)
    {
      ReadsKept(mid, b.mem, a.used, Tree(a), Frames(a.trees[a.roots[p]]), v);
    }
  }

  lemma Apart(mem: Memory, used: set<nat>, trees: map<nat, Node>, r: nat, q: nat)
    requires Separate(mem, used, trees) && r in trees && q in trees && r != q
    ensures Frames(trees[r]) !! Frames(trees[q])
  {
  }

  // ---- The heap of a program.

  ghost predicate UserPage(tree: Node, v: nat) {
    v / PAGE in Space(tree) && Space(tree)[v / PAGE].flags == USER_PAGE
  }

  /** Every byte from `start`, a page boundary, to the break lies on a page of user data. */
  ghost predicate HeapUsable(tree: Node, start: nat, heap: nat) {
    start % PAGE == 0 && start <= heap && forall v: nat :: start <= v < heap ==> UserPage(tree, v)
  }

  /** brk keeps the heap usable up to the break, wherever the break ends up. */
  lemma BreakUsable(tree: Node, tree': Node, start: nat, heap: nat, request: nat, heap': nat, reached: nat)
    requires HeapUsable(tree, start, heap) && BreakMoved(heap, request, heap', reached)
    requires Grown(Space(tree), Space(tree'), PageUp(heap), PageUp(heap) + reached)
    ensures HeapUsable(tree', start, heap')
  {
    hide Space, UserPage;
    forall v: nat | start <= v < heap' ensures UserPage(tree', v) {
      if v < heap {
        assert UserPage(tree, v);
        PageKept(tree, tree', heap, reached, v);
      } else if v / PAGE >= PageUp(heap) {
        PageGrown(tree, tree', heap, reached, v);
      } else {
        assert v / PAGE == (heap - 1) / PAGE;
        assert UserPage(tree, heap - 1);
        SamePage(tree, heap - 1, v);
        PageKept(tree, tree', heap, reached, v);
      }
    }
  }

  lemma SamePage(tree: Node, v: nat, w: nat)
    requires v / PAGE == w / PAGE
    ensures UserPage(tree, v) == UserPage(tree, w)
  {
  }

  lemma PageKept(tree: Node, tree': Node, heap: nat, reached: nat, v: nat)
    requires Grown(Space(tree), Space(tree'), PageUp(heap), PageUp(heap) + reached) && UserPage(tree, v)
    ensures UserPage(tree', v)
  {
    hide Space, PageUp;
  }

  lemma PageGrown(tree: Node, tree': Node, heap: nat, reached: nat, v: nat)
    requires Grown(Space(tree), Space(tree'), PageUp(heap), PageUp(heap) + reached)
    requires PageUp(heap) <= v / PAGE < PageUp(heap) + reached
    ensures UserPage(tree', v)
  {
    hide Space, PageUp;
  }

  /** Where a process's break is, and its address space. */
  ghost predicate HeapOf(a: Snap, start: nat) {
    && a.s.curr in a.roots && a.roots[a.s.curr] in a.trees && a.s.curr in a.breaks
    && HeapUsable(a.trees[a.roots[a.s.curr]], start, a.breaks[a.s.curr])
  }

  /** After brk the break is the one asked for or the old one, and user code may read and write every byte from the start
      of its heap up to it. */
  lemma BreakGives(a: Snap, r: Regs, b: Snap, start: nat)
    requires Law(a, Break(r), b) && HeapOf(a, start)
    ensures HeapOf(b, start) && b.s.curr == a.s.curr && b.s.curr in b.roots && b.s.curr in b.breaks
    ensures b.breaks[b.s.curr] == a.breaks[a.s.curr] || b.breaks[b.s.curr] == r.rdi > a.breaks[a.s.curr]
    ensures UserMay(b.mem, b.roots[b.s.curr], start, b.breaks[b.s.curr] - start)
  {
    hide Inv, Separate, Owners, Space, PageUp, FramesOf, Tidy, HeapUsable, Grown, Confined, OnNewFrames, PagesKept, UserMay;
    var reached :| Broke(a, r, b, reached);
    BreakUsable(Tree(a), Tree(b), start, a.breaks[a.s.curr], r.rdi, b.breaks[b.s.curr], reached);
    RootHasFrame(b.mem, b.used, b.trees, b.roots[b.s.curr]);
    HeapReached(b.mem, b.used, Tree(b), start, b.breaks[b.s.curr]);
  }

  lemma HeapReached(mem: Memory, used: set<nat>, tree: Node, start: nat, heap: nat)
    requires TreeOk(mem, used, tree) && HeapUsable(tree, start, heap) && heap <= STACK_BASE
    ensures UserMay(mem, tree.frame, start, heap - start)
  {
    hide Space, Sound, Frames, Distinct, UserMay;
    forall v: nat | start <= v < start + (heap - start)
      ensures v / PAGE in Space(tree) && Space(tree)[v / PAGE].flags == USER_PAGE
    {
      assert UserPage(tree, v);
    }
    UserPages(mem, used, tree, start, heap - start);
  }

  /** The current process of s exits by e0, and stays in the table from there, over es, to s'. */
  ghost predicate ExitedBefore(s: State, e0: Event, es: seq<Event>, s': State) {
    && Inv(s) && IsCall(s, e0, 60) && Step(s, e0).Next? && RunOk(Step(s, e0).s, es)
    && Remains(Step(s, e0).s, es, s.curr) && s' == After(Step(s, e0).s, es)
  }

  /** An exit status comes back: whatever happens between a process's exit and the wait that reaps it, that wait returns
      its pid and leaves in its caller's memory the low half of what the process passed to exit. */
  lemma StatusArrives(s: State, e0: Event, es: seq<Event>, a: Snap, e: Event, clock: seq<byte>, b: Snap)
    requires e0.Syscall? && ExitedBefore(s, e0, es, a.s)
    requires e.Syscall? && Reaped(a, e, clock, b, s.curr)
    ensures Result(a.s, e) == s.curr && WordAt(b, e.r.rdi) == Some(e0.r.rdi % TWO32)
  {
    hide Inv, Law, Step, Enabled, After, RunOk, Remains, WordAt, Result;
    ExitStatusKept(s, e0, es);
    WaitWrites(a, e, clock, b, s.curr);
  }
}
