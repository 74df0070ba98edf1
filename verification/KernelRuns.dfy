/** Runs of the whole kernel: system calls, interrupts, brk, execve and heap activity, one after the other. */
module KernelRuns {
  import opened Machine
  import opened Vfs
  import opened PageTables
  import opened Pmm
  import opened WalkSpec
  import opened PhysBytes
  import opened Vmm
  import opened Loader
  import opened Brk
  import opened Programs
  import opened UserMemory
  import H = Heap
  import opened ProcSpec
  import opened ProcInv
  import opened TaskQueues
  import opened Processes
  import opened Books
  import opened Kernel

  datatype Command = Work(ops: seq<H.HeapOp>)
                   | Note(a: nat, data: seq<byte>)
                   | Trap(e: Event, clock: seq<byte>)
                   | Break(r: Regs)
                   | Exec(r: Regs, segs: seq<Segment>, f: File, entry: u64)

  /** The whole state between two commands. */
  datatype Snap = Snap(s: State, mem: Memory, used: set<nat>, frames: nat, trees: map<nat, Node>, roots: map<nat, nat>,
                       breaks: map<nat, nat>, held: map<nat, nat>, rest: set<nat>, hhdm: nat)

  ghost function Now(sys: System): Snap
    reads sys, sys.pm, sys.pm.ring, sys.vm, sys.heap, sys.vm.pmm.bitmap
  {
    Snap(sys.pm.View(), sys.vm.mem, sys.vm.pmm.Used(), sys.vm.pmm.Frames(), sys.vm.trees, sys.roots, sys.breaks, sys.held,
         sys.Rest(), sys.heap.hhdm)
  }

  /** What every state between two commands keeps. */
  ghost predicate Sane(a: Snap) {
    && Inv(a.s) && Separate(a.mem, a.used, a.trees) && Owners(a.roots, a.s.procs.Keys, a.trees)
    && BreaksOk(a.breaks, a.s.procs.Keys) && a.s.curr in a.roots && a.roots[a.s.curr] in a.trees && a.s.curr in a.breaks
  }

  ghost function Tree(a: Snap): Node
    requires Sane(a)
  {
    a.trees[a.roots[a.s.curr]]
  }

  ghost function FreeFrames(a: Snap): nat {
    |Range(0, a.frames) - a.used|
  }

  /** What is asked of a command in itself. */
  ghost predicate Proper(c: Command) {
    match c
    case Work(ops) => forall i :: 0 <= i < |ops| && ops[i].Malloc? ==> ops[i].size < TWO64
    case Note(_, _) => true
    case Trap(e, _) => e.Syscall? ==> e.r.rax != 12 && (e.r.rax == 59 ==> e.entry.None?)
    case Break(r) => r.rax == 12 && r.rdi <= STACK_BASE
    case Exec(r, segs, f, _) =>
      r.rax == 59 && forall i :: 0 <= i < |segs| && segs[i].load ==>
        WellFormed(segs[i], f) && segs[i].vaddr + segs[i].memsz <= STACK_BASE
  }

  // ---- What each command does.

  ghost predicate Worked(held: map<nat, nat>, ops: seq<H.HeapOp>, held': map<nat, nat>, addrs: seq<nat>) {
    |addrs| == |ops| && H.NewEachTime(held, ops, addrs) && held' == H.Replay(held, ops, addrs, |ops|)
  }

  ghost predicate Entered(a: Snap, e: Event, clock: seq<byte>, b: Snap, mid: Memory)
    requires Sane(a) && Enabled(a.s, e) && Step(a.s, e).Next?
  {
    EntryLaw(a.s, e, clock, Step(a.s, e).regs.rax, a.mem, mid, b.mem, a.used, b.used, a.trees, b.trees, a.roots, b.roots,
             a.breaks, b.breaks)
  }

  ghost predicate Broke(a: Snap, r: Regs, b: Snap, reached: nat)
    requires Sane(a) && Sane(b) && b.s == a.s
  {
    BrkLaw(a.mem, b.mem, a.used, b.used, a.trees, b.trees, a.rest, b.rest, a.roots[a.s.curr], a.breaks[a.s.curr],
           b.breaks[a.s.curr], r.rdi, reached)
  }

  ghost predicate Law(a: Snap, c: Command, b: Snap) {
    && Sane(a) && Sane(b) && b.frames == a.frames && b.hhdm == a.hhdm
    && match c
       case Work(ops) => b == a.(used := b.used, held := b.held) && exists addrs :: Worked(a.held, ops, b.held, addrs)
       case Note(at, data) =>
         && b == a.(mem := b.mem) && at >= a.hhdm && OnOwnFrames(a.mem, b.mem, a.trees)
         && Copied(a.mem, b.mem, at - a.hhdm, data)
       case Trap(e, clock) =>
         && Enabled(a.s, e) && Step(a.s, e).Next? && b.s == Step(a.s, e).s && b.rest == a.rest && b.held == a.held
         && exists mid :: Entered(a, e, clock, b, mid)
       case Break(r) =>
         && b.s == a.s && b.roots == a.roots && b.held == a.held && b.breaks == a.breaks[a.s.curr := b.breaks[a.s.curr]]
         && exists reached :: Broke(a, r, b, reached)
       case Exec(_, segs, f, entry) =>
         if entry == 0 then b == a.(mem := b.mem) && Undone(a.mem, b.mem, a.used, b.used, a.trees, b.trees) else
         && b.s == a.s && b.held == a.held && b.rest == a.rest && f.backing.Regular?
         && b.roots == a.roots[a.s.curr := b.roots[a.s.curr]] && b.breaks == a.breaks[a.s.curr := b.breaks[a.s.curr]]
         && ExecLaw(a.mem, b.mem, a.used, b.used, a.trees, b.trees, a.roots[a.s.curr], b.roots[a.s.curr], segs,
                    f.backing.data, b.breaks[a.s.curr])
  }

  /** Why a command does not complete. */
  ghost predicate Stops(pmm: PhysicalMemory, a: Snap, c: Command)
    requires Sane(a)
    reads pmm.bitmap
  {
    match c
    case Work(ops) => exists i :: 0 <= i < |ops| && ops[i].Malloc?
    case Note(at, data) => at !in a.held || |data| > a.held[at]
    case Trap(e, clock) =>
      || !Enabled(a.s, e) || (e.Syscall? && !FreshFile(a.s, e.found, e.id)) || !Step(a.s, e).Next?
      || Astray(a.s, e, clock, Tree(a), FreeFrames(a))
      || !Reachable(a.s, e, clock, Tree(a))
    case Break(r) => a.s.idle || Tears(Tree(a), PageUp(a.breaks[a.s.curr]), PageUp(r.rdi), FreeFrames(a))
    case Exec(_, segs, _, _) => a.s.idle || LoadFails(pmm, {}, FreeFrames(a) - 5, segs)
  }

  ghost predicate LawAt(trail: seq<Snap>, cmds: seq<Command>, i: nat)
    requires i + 1 < |trail| && i < |cmds|
  {
    Law(trail[i], cmds[i], trail[i + 1])
  }

  /** The trail of the first n commands. */
  ghost predicate Trail(trail: seq<Snap>, cmds: seq<Command>, n: nat) {
    |trail| == n + 1 && n <= |cmds| && forall i :: 0 <= i < n ==> LawAt(trail, cmds, i)
  }

  lemma TrailSnoc(trail: seq<Snap>, cmds: seq<Command>, n: nat, b: Snap)
    requires Trail(trail, cmds, n) && n < |cmds| && Law(trail[n], cmds[n], b)
    ensures Trail(trail + [b], cmds, n + 1)
  {
    hide Law;
    var trail' := trail + [b];
    forall i | 0 <= i < n + 1 ensures LawAt(trail', cmds, i) {
      if i < n {
        assert LawAt(trail, cmds, i) && trail'[i] == trail[i] && trail'[i + 1] == trail[i + 1];
      }
    }
  }

  // ---- Carrying out commands.

  lemma SaneNow(sys: System)
    requires sys.Valid()
    ensures Sane(Now(sys))
  {
    hide Inv, Separate, Owners, Accounted, BreaksOk, Links;
  }

  method DoWork(sys: System, ops: seq<H.HeapOp>) returns (ok: bool)
    requires sys.Valid() && Proper(Work(ops))
    modifies sys, sys.heap, sys.vm.pmm.bitmap, sys.vm.pmm.bitmap.bytes
    ensures ok ==> sys.Valid() && Law(old(Now(sys)), Work(ops), Now(sys))
    ensures !ok ==> Sane(old(Now(sys))) && Stops(sys.vm.pmm, old(Now(sys)), Work(ops))
  {
    hide Inv, Separate, Owners, Accounted, BreaksOk, Links, H.Holds, H.Outstanding, H.Owned, HeapApart, H.LargeHeaders, RestOf;
    SaneNow(sys);
    ghost var held0 := sys.held;
    var addrs;
    ok, addrs := sys.HeapWork(ops);
    if ok {
      SaneNow(sys);
      assert Worked(held0, ops, sys.held, addrs);
    }
  }

  /** Whether the entry can happen now. */
  method Possible(sys: System, e: Event) returns (b: bool)
    requires sys.Valid()
    ensures b <==> Enabled(sys.pm.View(), e) && (e.Syscall? ==> FreshFile(sys.pm.View(), e.found, e.id))
  {
    hide Inv, Separate, Owners, Accounted, Links, BreaksOk, H.Holds, H.Outstanding, H.Owned, HeapApart;
    Basics(sys.pm.View());
    b := match e {
      case Tick(_) => true
      case Key(_, _) => true
      case Fault(_) => !sys.pm.idle
      case Syscall(_, found, id, _, _) => !sys.pm.idle && (found.Some? ==> id != 0 && id !in sys.pm.files)
      case Wake => sys.pm.idle
    };
  }

  method DoEntry(sys: System, e: Event, clock: seq<byte>) returns (ok: bool)
    requires sys.Valid() && Proper(Trap(e, clock))
    modifies sys, sys.pm, sys.pm.ring, sys.pm.ring.buffer, sys.vm, sys.vm.pmm.bitmap, sys.vm.pmm.bitmap.bytes
    ensures ok ==> sys.Valid() && Law(old(Now(sys)), Trap(e, clock), Now(sys))
    ensures !ok ==> Sane(old(Now(sys))) && Stops(sys.vm.pmm, old(Now(sys)), Trap(e, clock))
  {
    hide Inv, Separate, Owners, Accounted, BreaksOk, Links, H.Holds, H.Outstanding, H.Owned, HeapApart, H.LargeHeaders, RestOf,
         Step, Enabled, FreshFile, StoreOf, Reachable, EntryLaw, Astray;
    SaneNow(sys);
    ghost var a := Now(sys);
    ok := Possible(sys, e);
    if !ok {
      return;
    }
    var fate, regs, astray; ghost var mid;
    fate, regs, astray, mid := sys.Enter(e, clock);
    ok := !astray && fate == Done;
    if ok {
      SaneNow(sys);
      assert Entered(a, e, clock, Now(sys), mid);
    }
  }

  method DoNote(sys: System, a: nat, data: seq<byte>) returns (ok: bool)
    requires sys.Valid()
    modifies sys.vm
    ensures ok ==> sys.Valid() && Law(old(Now(sys)), Note(a, data), Now(sys))
    ensures !ok ==> Sane(old(Now(sys))) && Stops(sys.vm.pmm, old(Now(sys)), Note(a, data))
  {
    hide Inv, Separate, Owners, Accounted, BreaksOk, Links, H.Holds, H.Outstanding, H.Owned, HeapApart, H.LargeHeaders, RestOf,
         OnOwnFrames, Copied;
    SaneNow(sys);
    ok := a in sys.held && |data| <= sys.held[a];
    if ok {
      sys.OwnWrite(a, data);
      SaneNow(sys);
    }
  }

  method DoBreak(sys: System, r: Regs) returns (ok: bool)
    requires sys.Valid() && Proper(Break(r))
    modifies sys, sys.pm, sys.pm.ring, sys.pm.ring.buffer, sys.vm, sys.vm.pmm.bitmap, sys.vm.pmm.bitmap.bytes
    ensures ok ==> sys.Valid() && Law(old(Now(sys)), Break(r), Now(sys))
    ensures !ok ==> Sane(old(Now(sys))) && Stops(sys.vm.pmm, old(Now(sys)), Break(r))
  {
    hide Inv, Separate, Owners, Accounted, BreaksOk, Links, H.Holds, H.Outstanding, H.Owned, HeapApart, H.LargeHeaders, RestOf,
         BrkLaw, Tears, PageUp;
    SaneNow(sys);
    ghost var a := Now(sys);
    if sys.pm.idle {
      return false;
    }
    var halted, regs; ghost var reached;
    halted, regs, reached := sys.EnterBrk(r);
    ok := !halted;
    if ok {
      SaneNow(sys);
      assert Broke(a, r, Now(sys), reached);
    }
  }

  method DoExec(sys: System, r: Regs, segs: seq<Segment>, f: File, entry: u64) returns (ok: bool)
    requires sys.Valid() && Proper(Exec(r, segs, f, entry))
    modifies sys, sys.pm, sys.pm.ring, sys.pm.ring.buffer, sys.vm, sys.vm.pmm.bitmap, sys.vm.pmm.bitmap.bytes
    ensures ok ==> sys.Valid() && Law(old(Now(sys)), Exec(r, segs, f, entry), Now(sys))
    ensures !ok ==> Sane(old(Now(sys))) && Stops(sys.vm.pmm, old(Now(sys)), Exec(r, segs, f, entry))
  {
    hide Inv, Separate, Owners, Accounted, BreaksOk, Links, H.Holds, H.Outstanding, H.Owned, HeapApart, H.LargeHeaders, RestOf,
         ExecLaw, Undone, LoadFails, WellFormed;
    SaneNow(sys);
    if sys.pm.idle {
      return false;
    }
    ghost var a := Now(sys);
    var end, regs;
    end, regs := sys.Execve(r, segs, f, entry);
    ok := end != Crashed;
    if ok {
      if entry == 0 {
        AllUndone(a.mem, sys.vm.mem, a.used, sys.vm.pmm.Used(), a.trees, sys.vm.trees);
      }
      SaneNow(sys);
    }
  }

  /** Any commands, up to the first that does not complete: the trail they leave obeys the laws, every state on it is sane,
      and the run stops only for the reasons given. */
  method Run(sys: System, cmds: seq<Command>) returns (n: nat, ghost trail: seq<Snap>)
    requires sys.Valid() && forall i :: 0 <= i < |cmds| ==> Proper(cmds[i])
    modifies sys, sys.pm, sys.pm.ring, sys.pm.ring.buffer, sys.vm, sys.heap, sys.vm.pmm.bitmap, sys.vm.pmm.bitmap.bytes
    ensures n <= |cmds| && Trail(trail, cmds, n) && trail[0] == old(Now(sys)) && Sane(trail[n])
    ensures n == |cmds| ==> sys.Valid() && trail[n] == Now(sys)
    ensures n < |cmds| ==> Stops(sys.vm.pmm, trail[n], cmds[n])
  {
    hide Law, Stops, Proper, Sane, Inv, Separate, Owners, Accounted, BreaksOk, Links, H.Holds, H.Outstanding, H.Owned, HeapApart,
         H.LargeHeaders, RestOf;
    trail := [Now(sys)];
    SaneNow(sys);
    for i := 0 to |cmds|
      invariant sys.Valid() && Trail(trail, cmds, i) && trail[0] == old(Now(sys)) && trail[i] == Now(sys) && Sane(trail[i])
    {
      var ok;
      match cmds[i] {
        case Work(ops) => ok := DoWork(sys, ops);
        case Note(a, data) => ok := DoNote(sys, a, data);
        case Trap(e, clock) => ok := DoEntry(sys, e, clock);
        case Break(r) => ok := DoBreak(sys, r);
        case Exec(r, segs, f, entry) => ok := DoExec(sys, r, segs, f, entry);
      }
      if !ok {
        return i, trail;
      }
      TrailSnoc(trail, cmds, i, Now(sys));
      SaneNow(sys);
      trail := trail + [Now(sys)];
    }
    return |cmds|, trail;
  }

  // ---- No frame is lost except to a brk call that did not get all it asked for.

  /** No process has pages between its break and its stack. */
  ghost predicate AllTidy(a: Snap)
    requires Sane(a)
  {
    forall p :: p in a.roots ==> TidyOf(a, p)
  }

  ghost predicate TidyOf(a: Snap, p: nat) {
    p in a.roots && p in a.breaks && a.roots[p] in a.trees && Tidy(Space(a.trees[a.roots[p]]), a.breaks[p])
  }

  /** A brk call, if the command is one, returned what it was asked for, or was not asked to grow the heap. */
  ghost predicate Fulfilled(a: Snap, c: Command, b: Snap)
    requires Sane(a) && Sane(b)
  {
    c.Break? ==> c.r.rdi == 0 || c.r.rdi < a.breaks[a.s.curr] || (a.s.curr in b.breaks && b.breaks[a.s.curr] == c.r.rdi)
  }

  ghost predicate FulfilledAt(trail: seq<Snap>, cmds: seq<Command>, i: nat)
    requires i + 1 < |trail| && i < |cmds| && LawAt(trail, cmds, i)
  {
    Fulfilled(trail[i], cmds[i], trail[i + 1])
  }

  lemma ForkTidy(a: Snap, b: Snap, e: Event, clock: seq<byte>, mid: Memory)
    requires Sane(a) && Sane(b) && AllTidy(a) && Enabled(a.s, e) && Step(a.s, e).Next? && IsFork(e)
    requires Entered(a, e, clock, b, mid)
    ensures AllTidy(b)
  {
    hide Inv, Separate, Owners, BreaksOk, Space, Tidy, Step, StoreOf, StoredAt, Twin, Frames;
    var c := Step(a.s, e).regs.rax;
    OwnedRoots(a.roots, a.s.procs.Keys, a.trees);
    BreakKeys(a.breaks, a.s.procs.Keys);
    forall p | p in b.roots ensures TidyOf(b, p) {
      if p == c {
        assert TidyOf(a, a.s.curr);
        ChildTidy(mid, b.mem, a.used, b.used, a.trees, b.trees, a.roots[a.s.curr], b.roots[c], a.breaks[a.s.curr]);
      } else {
        assert TidyOf(a, p);
      }
    }
  }

  lemma BreakKeys(breaks: map<nat, nat>, pids: set<nat>)
    requires BreaksOk(breaks, pids)
    ensures breaks.Keys == pids
  {
  }

  lemma EntryTidy(a: Snap, e: Event, clock: seq<byte>, b: Snap)
    requires Law(a, Trap(e, clock), b) && AllTidy(a)
    ensures AllTidy(b)
  {
    hide Inv, Separate, BreaksOk, Space, Tidy, Step, StoreOf, StoredAt, ForkedSpace, Enabled;
    var mid :| Entered(a, e, clock, b, mid);
    if IsFork(e) {
      ForkTidy(a, b, e, clock, mid);
    } else {
      BreakKeys(a.breaks, a.s.procs.Keys);
      forall p | p in b.roots ensures TidyOf(b, p) {
        assert TidyOf(a, p);
      }
    }
  }

  lemma BreakTidy(a: Snap, r: Regs, b: Snap)
    requires Law(a, Break(r), b) && AllTidy(a) && Fulfilled(a, Break(r), b)
    ensures AllTidy(b) && b.rest == a.rest
  {
    hide Inv, Separate, BreaksOk, Space, Tidy, HeapGrown, FramesOf, PageUp;
    var reached :| Broke(a, r, b, reached);
    assert TidyOf(a, a.s.curr);
    forall p | p in b.roots ensures TidyOf(b, p) {
      assert TidyOf(a, p);
    }
  }

  lemma ExecTidy(a: Snap, c: Command, b: Snap)
    requires c.Exec? && Law(a, c, b) && AllTidy(a)
    ensures AllTidy(b)
  {
    hide Inv, Separate, Owners, BreaksOk, Tidy, ExecLaw, Undone, Proper;
    if c.entry == 0 {
      forall p | p in b.roots ensures TidyOf(b, p) {
        assert TidyOf(a, p);
      }
      return;
    }
    OwnedRoots(a.roots, a.s.procs.Keys, a.trees);
    OwnedRoots(b.roots, b.s.procs.Keys, b.trees);
    ExecSpaces(a, b, c.segs, c.f.backing.data);
    BreakKeys(b.breaks, b.s.procs.Keys);
    forall p | p in b.roots ensures TidyOf(b, p) {
      if p != a.s.curr {
        assert TidyOf(a, p);
        OwnRoot(b.roots, b.s.procs.Keys, b.trees, p, a.s.curr);
      }
    }
  }

  lemma OwnRoot(roots: map<nat, nat>, pids: set<nat>, trees: map<nat, Node>, p: nat, q: nat)
    requires Owners(roots, pids, trees) && p in pids && q in pids && p != q
    ensures roots[p] != roots[q] && roots[p] in trees
  {
  }

  /** execve leaves the caller tidy, and every address space that is still there as it was. */
  lemma ExecSpaces(a: Snap, b: Snap, segs: seq<Segment>, data: seq<byte>)
    requires Sane(a) && Sane(b) && b.s == a.s
    requires ExecLaw(a.mem, b.mem, a.used, b.used, a.trees, b.trees, a.roots[a.s.curr], b.roots[a.s.curr], segs, data,
                     b.breaks[a.s.curr])
    ensures TidyOf(b, a.s.curr)
    ensures forall r :: r in b.trees && r != b.roots[a.s.curr] ==> r in a.trees && b.trees[r] == a.trees[r]
  {
    hide Inv, Separate, Owners, BreaksOk, Space, Tidy, ProcessImage, Replaced;
  }

  lemma CommandTidy(a: Snap, c: Command, b: Snap)
    requires Law(a, c, b) && AllTidy(a) && Fulfilled(a, c, b)
    ensures AllTidy(b) && b.rest == a.rest
  {
    hide Inv, Separate, Owners, BreaksOk, AllTidy, ExecLaw, BrkLaw, MemoryLaw, StoredAt, Step, Enabled;
    match c
    case Work(_) => WorkTidy(a, c, b);
    case Note(_, _) => WorkTidy(a, c, b);
    case Trap(e, clock) => EntryTidy(a, e, clock, b);
    case Break(r) => BreakTidy(a, r, b);
    case Exec(_, _, _, _) => ExecTidy(a, c, b);
  }

  lemma WorkTidy(a: Snap, c: Command, b: Snap)
    requires (c.Work? || c.Note?) && Law(a, c, b) && AllTidy(a)
    ensures AllTidy(b) && b.rest == a.rest
  {
    hide Inv, Separate, Owners, BreaksOk, Space, Tidy;
    forall p | p in b.roots ensures TidyOf(b, p) {
      assert TidyOf(a, p);
    }
  }

  /** Over any run in which every brk call gets what it asks for, the frames that belong to nobody stay the same. */
  lemma {:induction false} NothingLeaks(trail: seq<Snap>, cmds: seq<Command>, n: nat)
    requires Trail(trail, cmds, n) && Sane(trail[0]) && AllTidy(trail[0])
    requires forall i :: 0 <= i < n ==> FulfilledAt(trail, cmds, i)
    ensures Sane(trail[n]) && AllTidy(trail[n]) && trail[n].rest == trail[0].rest
    decreases n
  {
    hide AllTidy, Fulfilled, Sane;
    if n > 0 {
      TrailPrefix(trail, cmds, n);
      var trail' := trail[..n];
      forall i | 0 <= i < n - 1 ensures LawAt(trail', cmds, i) && FulfilledAt(trail', cmds, i) {
        assert LawAt(trail, cmds, i) && FulfilledAt(trail, cmds, i) && trail'[i] == trail[i] && trail'[i + 1] == trail[i + 1];
      }
      NothingLeaks(trail', cmds, n - 1);
      assert LawAt(trail, cmds, n - 1) && FulfilledAt(trail, cmds, n - 1);
      CommandTidy(trail[n - 1], cmds[n - 1], trail[n]);
    }
  }

  lemma TrailPrefix(trail: seq<Snap>, cmds: seq<Command>, n: nat)
    requires Trail(trail, cmds, n) && n > 0
    ensures Trail(trail[..n], cmds, n - 1) && trail[..n][0] == trail[0] && trail[..n][n - 1] == trail[n - 1]
  {
    hide Law;
    forall i | 0 <= i < n - 1 ensures LawAt(trail[..n], cmds, i) {
      assert LawAt(trail, cmds, i);
    }
  }

  /** A frame brk maps over at this command. */
  ghost predicate MappedOver(a: Snap, c: Command, f: nat)
    requires Sane(a)
  {
    c.Break? && exists p: nat :: PageUp(a.breaks[a.s.curr]) <= p && f in FrameOf(Space(Tree(a)), p)
  }

  ghost predicate LostAt(trail: seq<Snap>, cmds: seq<Command>, i: nat, f: nat) {
    0 <= i < |trail| && i < |cmds| && Sane(trail[i]) && MappedOver(trail[i], cmds[i], f)
  }

  lemma {:induction false} FramesOfPages(space: map<nat, Entry>, lo: nat, hi: nat, f: nat)
    requires f in FramesOf(space, lo, hi)
    ensures exists p: nat :: lo <= p && f in FrameOf(space, p)
  {
    if f in FrameOf(space, hi - 1) {
      assert lo <= hi - 1;
    } else {
      FramesOfPages(space, lo, hi - 1, f);
    }
  }

  lemma RestStep(a: Snap, c: Command, b: Snap)
    requires Law(a, c, b)
    ensures a.rest <= b.rest && forall f :: f in b.rest - a.rest ==> MappedOver(a, c, f)
  {
    hide Inv, Separate, Owners, BreaksOk, Space, PageUp, HeapGrown, Tidy, FramesOf, MemoryLaw, Step, Enabled, StoredAt,
         BreakMoved;
    if c.Break? {
      var reached :| Broke(a, c.r, b, reached);
      var lo := PageUp(a.breaks[a.s.curr]);
      forall f | f in b.rest - a.rest ensures MappedOver(a, c, f) {
        FramesOfPages(Space(Tree(a)), lo, lo + reached, f);
      }
    }
  }

  /** Over any run at all, a frame joins those that belong to nobody only when a brk call maps over it, above the break. */
  lemma {:induction false} OnlyBrkLoses(trail: seq<Snap>, cmds: seq<Command>, n: nat)
    requires Trail(trail, cmds, n)
    ensures trail[0].rest <= trail[n].rest
    ensures forall f :: f in trail[n].rest - trail[0].rest ==> exists i: nat :: LostAt(trail, cmds, i, f)
    decreases n
  {
    hide MappedOver, Law, Sane;
    if n > 0 {
      TrailPrefix(trail, cmds, n);
      var trail' := trail[..n];
      OnlyBrkLoses(trail', cmds, n - 1);
      assert LawAt(trail, cmds, n - 1);
      LawSane(trail[n - 1], cmds[n - 1], trail[n]);
      RestStep(trail[n - 1], cmds[n - 1], trail[n]);
      forall f | f in trail[n].rest - trail[0].rest ensures exists i: nat :: LostAt(trail, cmds, i, f) {
        if f in trail'[n - 1].rest {
          assert f in trail'[n - 1].rest - trail'[0].rest;
          var i: nat :| LostAt(trail', cmds, i, f);
          assert trail[i] == trail'[i];
          assert LostAt(trail, cmds, i, f);
        } else {
          assert LostAt(trail, cmds, n - 1, f);
        }
      }
    }
  }

  lemma LawSane(a: Snap, c: Command, b: Snap)
    requires Law(a, c, b)
    ensures Sane(a) && Sane(b)
  {
  }

  /** The kernel from the start of init on: init is started, and any commands follow. */
  method BootAndRun(vm: AddressSpaces, heap: H.KernelHeap, held: map<nat, nat>, segs: seq<Segment>, f: File, entry: u64,
                    r: Regs, tty: nat, image: nat, cmds: seq<Command>)
    returns (ok: bool, sys: System?, n: nat, ghost trail: seq<Snap>)
    requires vm.Valid() && vm.trees == map[] && IsTable(vm.mem, vm.current) && tty != 0 && image != 0 && tty != image
    requires heap.Valid() && heap.pmm == vm.pmm
    requires H.Holds(heap.hdr, heap.live, heap.large, held) && H.Outstanding(heap.live, heap.large, held, {}, map[])
    requires forall i :: 0 <= i < |segs| && segs[i].load ==>
               WellFormed(segs[i], f) && segs[i].vaddr + segs[i].memsz <= STACK_BASE
    requires forall i :: 0 <= i < |cmds| ==> Proper(cmds[i])
    modifies vm, heap, vm.pmm.bitmap, vm.pmm.bitmap.bytes
    ensures ok ==> n <= |cmds| && Trail(trail, cmds, n) && trail[0].s == Boot(tty, image, f, r) && Sane(trail[n])
    ensures ok ==> trail[0].rest == RestOf(old(vm.pmm.Used()), heap.hhdm, old(heap.pages), old(heap.large))
    ensures ok && n == |cmds| ==> sys != null && sys.Valid() && trail[n] == Now(sys)
    // If every brk call got what it asked for, no frame is lost.
    ensures ok && (forall i :: 0 <= i < n ==> FulfilledAt(trail, cmds, i)) ==> trail[n].rest == trail[0].rest
  {
    hide Law, Stops, Proper, Sane, Inv, Separate, Owners, Accounted, BreaksOk, Links, H.Holds, H.Outstanding, H.Owned, HeapApart,
         H.LargeHeaders, RestOf, ProgramImage, LoadFails, WellFormed, AllTidy, Fulfilled, Boot;
    n, trail := 0, [];
    var rip, rsp;
    ok, sys, rip, rsp := StartInit(vm, heap, held, segs, f, entry, r, tty, image);
    if !ok {
      return;
    }
    SaneNow(sys);
    BootProcs(tty, image, f, r);
    InitTidy(Now(sys), segs, f.backing.data);
    n, trail := Run(sys, cmds);
    if forall i :: 0 <= i < n ==> FulfilledAt(trail, cmds, i) {
      NothingLeaks(trail, cmds, n);
    }
  }

  lemma InitTidy(a: Snap, segs: seq<Segment>, data: seq<byte>)
    requires Sane(a) && a.s.procs.Keys == {a.s.curr}
    requires ProgramImage(a.mem, a.used, Tree(a), segs, data, a.breaks[a.s.curr])
    ensures AllTidy(a)
  {
    hide Inv, Separate, Space, Tidy, ProcessImage;
    forall p | p in a.roots ensures TidyOf(a, p) {
      assert p == a.s.curr;
    }
  }
}
