/** Who has which frame: every process its own pagemap, the heap its pages and runs, and the rest of the kernel; and what
    fork, wait, execve, brk and the heap do to that. */
module Books {
  import opened Machine
  import opened Vfs
  import opened PageTables
  import opened CloneSpec
  import opened WalkSpec
  import opened PhysBytes
  import opened Vmm
  import opened Loader
  import opened Brk
  import opened Programs
  import opened ProcSpec
  import opened ProcInv
  import opened ProcRuns
  import opened ProcContexts
  import opened UserMemory
  import H = Heap

  // ---- How a step changes the set of processes.

  ghost predicate IsFork(e: Event) {
    e.Syscall? && e.r.rax == 57
  }

  ghost predicate Reaps(s: State, e: Event) {
    e.Syscall? && e.r.rax == 61 && exists z :: ZombieChild(s.procs, z, s.curr)
  }

  /** fork adds the process it returns, wait with a zombie to reap removes the one it returns, nothing else changes who
      is in the table. */
  ghost predicate TableLaw(s: State, e: Event, s': State, rax: nat) {
    if IsFork(e) then rax !in s.procs && s'.procs.Keys == s.procs.Keys + {rax} && s'.curr == s.curr
    else if Reaps(s, e) then rax in s.procs && rax != s.curr && s'.procs.Keys == s.procs.Keys - {rax} && s'.curr == s.curr
    else s'.procs.Keys == s.procs.Keys
  }

  lemma FileCallsTable(s: State, r: Regs, e: Event)
    requires s.curr in s.procs && e.Syscall? && Handled(s, r, e).Next? && r.rax in {0, 1, 2, 3, 8, 32, 33, 62}
    ensures Handled(s, r, e).s.procs.Keys == s.procs.Keys
  {
    hide Closed, Shared, Seek, FirstNull, Clip, Moved, IntArg;
  }

  lemma HandledTable(s: State, r: Regs, e: Event)
    requires Inv(s) && !s.idle && e.Syscall? && r == UserSegments(e.r) && Handled(s, r, e).Next?
    ensures TableLaw(s, e, Handled(s, r, e).s, Handled(s, r, e).regs.rax)
    ensures IsFork(e) || Reaps(s, e) ==> s.curr in Handled(s, r, e).s.procs && Handled(s, r, e).s.procs[s.curr].state == Runs
  {
    hide Inv, Exited, Forked, Waited, ReadCall, WriteCall, OpenCall, CloseCall, DupCall, Dup2Call, SeekCall, Killed, IntArg;
    RunsNow(s);
    if r.rax == 57 {
      ForkTable(s, r);
    } else if r.rax == 60 {
      ExitedFrame(s, IntArg(r.rdi), r);
    } else if r.rax == 61 {
      WaitMeaning(s, r);
      WaitTable(s, r);
    } else if r.rax in {0, 1, 2, 3, 8, 32, 33, 62} {
      FileCallsTable(s, r, e);
    }
  }

  lemma ForkTable(s: State, r: Regs)
    requires s.curr in s.procs && Forked(s, r).Next?
    ensures var s', c := Forked(s, r).s, Forked(s, r).regs.rax;
            c !in s.procs && s'.procs.Keys == s.procs.Keys + {c} && s'.curr == s.curr && s'.procs[s.curr] == s.procs[s.curr]
  {
    hide SharedAll;
  }

  lemma WaitTable(s: State, r: Regs)
    requires s.curr in s.procs && Waited(s, r).Next? && s.procs[s.curr].state == Runs
    ensures Waited(s, r).s.curr == s.curr
    ensures (forall z :: !ZombieChild(s.procs, z, s.curr)) ==> Waited(s, r).s.procs.Keys == s.procs.Keys
  {
  }

  lemma StepTable(s: State, e: Event)
    requires Inv(s) && Enabled(s, e) && Step(s, e).Next?
    ensures TableLaw(s, e, Step(s, e).s, Step(s, e).regs.rax)
  {
    hide Inv, Handled, LoadNext, Exited, WokenAll;
    match e
    case Tick(r) => SwitchTable(s, r);
    case Fault(r) =>
      var s1 := s.(procs := s.procs[s.curr := s.procs[s.curr].(kill := true)]);
      CondemnedInv(s);
      SwitchTable(s1, r);
    case Key(scan, _) => KeyContext(s, scan);
    case Wake => LoadNextSame(s, s.procs[s.curr].saved);
    case Syscall(_, _, _, _, _) =>
      var r := UserSegments(e.r);
      HandledTable(s, r, e);
      HandledInv(s, r, e);
      var s1, r1 := Handled(s, r, e).s, Handled(s, r, e).regs;
      if s1.procs[s.curr].state != Runs {
        var r2 := r1.(rax := e.r.rax, rip := Sub64(r1.rip, 2));
        LoadNextSame(s1.(procs := s1.procs[s.curr := s1.procs[s.curr].(saved := r2)]), r2);
      }
  }

  lemma SwitchTable(s: State, r: Regs)
    requires Inv(s) && s.curr in s.procs && (s.idle || Switched(s, r).Next?)
    ensures !s.idle ==> Switched(s, r).s.procs.Keys == s.procs.Keys
  {
    hide Inv, Exited, LoadNext;
    if !s.idle {
      if s.procs[s.curr].kill {
        ExitedFrame(s, KILL_STATUS, r);
        LoadNextSame(Exited(s, KILL_STATUS, r).s, r);
      } else if Queue(s, Runnable) != [] {
        LoadNextSame(Enqueued(Saved(s, r), Runnable, s.curr), r);
      }
    }
  }

  // ---- Who owns which frames.

  /** Every process has a pagemap of its own, and every pagemap belongs to a process. */
  ghost predicate Owners(roots: map<nat, nat>, pids: set<nat>, trees: map<nat, Node>) {
    && roots.Keys == pids && (forall p :: p in roots ==> roots[p] in trees)
    && (forall p, q :: p in roots && q in roots && p != q ==> roots[p] != roots[q])
    && (forall r :: r in trees ==> exists p :: p in roots && roots[p] == r)
  }

  ghost predicate InSpace(trees: map<nat, Node>, f: nat) {
    exists r :: r in trees && f in Frames(trees[r])
  }

  /** The frames in use are those of the rest of the kernel and those of the pagemaps, with none in both. */
  ghost predicate Accounted(used: set<nat>, rest: set<nat>, trees: map<nat, Node>) {
    && (forall f :: f in used <==> f in rest || InSpace(trees, f))
    && (forall f :: f in rest ==> !InSpace(trees, f))
  }

  lemma OwnersFork(roots: map<nat, nat>, pids: set<nat>, trees: map<nat, Node>, trees': map<nat, Node>, c: nat, to: nat)
    requires Owners(roots, pids, trees) && c !in pids && to !in trees && to in trees' && trees' == With(trees, to, trees'[to])
    ensures Owners(roots[c := to], pids + {c}, trees')
  {
    var roots' := roots[c := to];
    forall r | r in trees' ensures exists p :: p in roots' && roots'[p] == r {
      if r == to {
        assert c in roots' && roots'[c] == r;
      } else {
        var p :| p in roots && roots[p] == r;
        assert p in roots' && roots'[p] == r;
      }
    }
  }

  lemma OwnersReap(roots: map<nat, nat>, pids: set<nat>, trees: map<nat, Node>, z: nat)
    requires Owners(roots, pids, trees) && z in pids
    ensures Owners(roots - {z}, pids - {z}, trees - {roots[z]})
  {
    var roots', trees' := roots - {z}, trees - {roots[z]};
    forall r | r in trees' ensures exists p :: p in roots' && roots'[p] == r {
      var p :| p in roots && roots[p] == r;
      assert p in roots' && roots'[p] == r;
    }
  }

  lemma AccountedAdded(used: set<nat>, used': set<nat>, rest: set<nat>, trees: map<nat, Node>, trees': map<nat, Node>, to: nat)
    requires Accounted(used, rest, trees) && to !in trees && to in trees' && trees' == With(trees, to, trees'[to])
    requires Taken(used, used', Frames(trees'[to]))
    ensures Accounted(used', rest, trees')
  {
    hide Frames;
    forall f ensures InSpace(trees', f) <==> InSpace(trees, f) || f in Frames(trees'[to]) {
      if InSpace(trees, f) {
        var r :| r in trees && f in Frames(trees[r]);
        assert r in trees' && f in Frames(trees'[r]);
      }
      if f in Frames(trees'[to]) {
        assert to in trees';
      }
    }
  }

  /** The frames brk maps over belong to nobody afterwards, although they stay in use. */
  lemma AccountedBrk(mem: Memory, mem': Memory, used: set<nat>, used': set<nat>, rest: set<nat>, trees: map<nat, Node>,
                     root: nat, tree': Node, lost: set<nat>)
    requires Accounted(used, rest, trees) && Separate(mem, used, trees) && root in trees
    requires Confined(mem, mem', used, used', trees[root], tree', lost)
    ensures Accounted(used', rest + lost, With(trees, root, tree'))
    ensures rest !! lost
  {
    hide Frames, OnlyIn, Pagemaps;
    var trees' := With(trees, root, tree');
    FramesInUse(mem, used, trees, root);
    forall f | f in Frames(trees[root]) ensures InSpace(trees, f) {
    }
    forall f ensures InSpace(trees', f) <==> f in Frames(tree') || (InSpace(trees, f) && f !in Frames(trees[root])) {
      if InSpace(trees', f) {
        var r :| r in trees' && f in Frames(trees'[r]);
        assert r != root ==> Frames(trees[r]) !! Frames(trees[root]) && r in trees;
      }
      if f in Frames(tree') {
        assert root in trees' && f in Frames(trees'[root]);
      }
      if InSpace(trees, f) && f !in Frames(trees[root]) {
        var r :| r in trees && f in Frames(trees[r]);
        assert r in trees' && f in Frames(trees'[r]);
      }
    }
  }

  lemma AccountedReap(mem: Memory, mem': Memory, used: set<nat>, used': set<nat>, rest: set<nat>, trees: map<nat, Node>,
                      trees': map<nat, Node>, root: nat)
    requires Accounted(used, rest, trees) && Separate(mem, used, trees)
    requires DroppedSpace(mem, mem', used, used', trees, trees', root)
    ensures Accounted(used', rest, trees')
  {
    hide Frames, OnlyIn, KernelHalf, Pagemaps;
    forall f ensures InSpace(trees', f) <==> InSpace(trees, f) && f !in Frames(trees[root]) {
      if InSpace(trees, f) && f !in Frames(trees[root]) {
        var r :| r in trees && f in Frames(trees[r]);
        assert r in trees' && f in Frames(trees'[r]);
      }
      if InSpace(trees', f) {
        var r :| r in trees' && f in Frames(trees'[r]);
        assert r in trees && Frames(trees[r]) !! Frames(trees[root]);
      }
    }
  }

  lemma RootIsTable(mem: Memory, used: set<nat>, trees: map<nat, Node>, root: nat)
    requires Separate(mem, used, trees) && root in trees
    ensures IsTable(mem, root)
  {
    RootHasFrame(mem, used, trees, root);
  }

  /** The break of the child is that of its parent; the break of a reaped process is forgotten. */
  ghost function BreaksAfter(s: State, e: Event, rax: nat, breaks: map<nat, nat>): map<nat, nat>
    requires s.curr in breaks
  {
    if IsFork(e) then breaks[rax := breaks[s.curr]] else if Reaps(s, e) then breaks - {rax} else breaks
  }

  ghost predicate BreaksOk(breaks: map<nat, nat>, pids: set<nat>) {
    breaks.Keys == pids && forall p :: p in breaks ==> breaks[p] <= STACK_BASE
  }

  lemma BreakSet(breaks: map<nat, nat>, pids: set<nat>, p: nat, heap: nat)
    requires BreaksOk(breaks, pids) && p in pids && heap <= STACK_BASE
    ensures BreaksOk(breaks[p := heap], pids)
  {
  }

  lemma BreakRead(breaks: map<nat, nat>, pids: set<nat>, p: nat)
    requires BreaksOk(breaks, pids) && p in pids
    ensures p in breaks && breaks[p] <= STACK_BASE
  {
  }

  lemma BreaksSettled(s: State, e: Event, s': State, rax: nat, breaks: map<nat, nat>)
    requires BreaksOk(breaks, s.procs.Keys) && s.curr in breaks && TableLaw(s, e, s', rax)
    ensures BreaksOk(BreaksAfter(s, e, rax, breaks), s'.procs.Keys)
  {
    hide IsFork, Reaps;
    assert (breaks - {rax}).Keys == breaks.Keys - {rax};
    assert breaks[rax := breaks[s.curr]].Keys == breaks.Keys + {rax};
  }

  /** brk as an event of the process machine, with its result. */
  function BrkEvent(r: Regs, result: u64): Event {
    Syscall(r, None, 0, None, result)
  }

  /** execve, with the entry point of the program if it could be loaded. */
  function ExecEvent(r: Regs, entry: Option<u64>): Event {
    Syscall(r, None, 0, entry, 0)
  }

  function AfterExec(r: Regs, entry: Option<u64>): Regs {
    if entry.Some? then Started(r, entry.value) else r.(rax := MINUS_ONE)
  }

  /** Neither brk nor execve changes the process table. */
  lemma Stays(s: State, r: Regs, result: u64, entry: Option<u64>)
    requires Inv(s) && !s.idle
    ensures r.rax == 12 ==> Step(s, BrkEvent(r, result)) == Next(s, UserSegments(r).(rax := result))
    ensures r.rax == 59 ==> Step(s, ExecEvent(r, entry)) == Next(s, AfterExec(UserSegments(r), entry))
  {
    hide Inv, ReadCall, WriteCall, OpenCall, CloseCall, DupCall, Dup2Call, SeekCall, Killed, Forked, Exited, Waited, LoadNext;
    RunsNow(s);
  }

  /** fork: the child's address space is a twin of the caller's in frames that were free. wait: exactly the frames of the
      reaped process go back. Everything else leaves memory alone. */
  ghost predicate MemoryLaw(s: State, e: Event, rax: nat, mem: Memory, mem': Memory, used: set<nat>, used': set<nat>,
                            trees: map<nat, Node>, trees': map<nat, Node>, roots: map<nat, nat>, roots': map<nat, nat>) {
    if IsFork(e) then
      && s.curr in roots && rax !in roots && rax in roots' && roots' == roots[rax := roots'[rax]]
      && ForkedSpace(mem, mem', used, used', trees, trees', roots[s.curr], roots'[rax])
    else if Reaps(s, e) then
      rax in roots && roots' == roots - {rax} && DroppedSpace(mem, mem', used, used', trees, trees', roots[rax])
    else mem' == mem && used' == used && trees' == trees && roots' == roots
  }

  /** The address space `tree` gave way to tree': exactly its frames went back, those of tree' were free, and nothing else
      was written. */
  ghost predicate Replaced(mem: Memory, mem': Memory, used: set<nat>, used': set<nat>, tree: Node, tree': Node) {
    && Frames(tree') !! used && used' == used - Frames(tree) + Frames(tree')
    && OnlyIn(mem, mem', Frames(tree) + Frames(tree'))
  }

  /** execve: the caller's address space gives way to one that holds the program, and every other stays. */
  ghost predicate ExecLaw(mem: Memory, mem': Memory, used: set<nat>, used': set<nat>, trees: map<nat, Node>,
                          trees': map<nat, Node>, former: nat, root: nat, segs: seq<Segment>, data: seq<byte>, heap: nat) {
    && former in trees && root !in trees && root in trees' && trees' == With(trees, root, trees'[root]) - {former}
    && ProgramImage(mem', used', trees'[root], segs, data, heap)
    && Replaced(mem, mem', used, used', trees[former], trees'[root])
  }

  /** User code may use the page below the stack pointer of a new program. */
  lemma StackReady(mem: Memory, used: set<nat>, trees: map<nat, Node>, root: nat, segs: seq<Segment>, data: seq<byte>,
                   heap: nat)
    requires Separate(mem, used, trees) && root in trees && ProgramImage(mem, used, trees[root], segs, data, heap)
    ensures UserMay(mem, root, USER_STACK_PTR - PAGE, PAGE)
    ensures CanStore(trees[root], USER_STACK_PTR - PAGE, PAGE)
  {
    hide Space, ProcessImage, Tidy, Sound, Distinct, Frames, UserMay;
    RootHasFrame(mem, used, trees, root);
    forall v: nat | USER_STACK_PTR - PAGE <= v < USER_STACK_PTR ensures v / PAGE == STACK_PAGE {
    }
    UserPages(mem, used, trees[root], USER_STACK_PTR - PAGE, PAGE);
  }

  /** A failed execve: every address space, and every frame in use, is as it was. */
  ghost predicate Undone(mem: Memory, mem': Memory, used: set<nat>, used': set<nat>, trees: map<nat, Node>,
                         trees': map<nat, Node>) {
    && trees' == trees && used' == used && mem.Keys <= mem'.Keys
    && forall f :: f in used && f in mem ==> mem'[f] == mem[f]
  }

  lemma BuiltInVain(mem: Memory, mem1: Memory, mem': Memory, used: set<nat>, used1: set<nat>, used': set<nat>,
                    trees: map<nat, Node>, trees1: map<nat, Node>, trees': map<nat, Node>, root: nat)
    requires root !in trees && root in trees1 && trees1 == With(trees, root, trees1[root])
    requires Fresh(mem, mem1, used, used1, trees1[root])
    requires DroppedSpace(mem1, mem', used1, used', trees1, trees', root)
    ensures Undone(mem, mem', used, used', trees, trees')
  {
    hide Frames, KernelHalf;
    assert used + Frames(trees1[root]) - Frames(trees1[root]) == used;
    assert With(trees, root, trees1[root]) - {root} == trees;
  }

  lemma ReplacedBy(mem: Memory, mem1: Memory, mem': Memory, used: set<nat>, used1: set<nat>, used': set<nat>,
                   trees: map<nat, Node>, trees': map<nat, Node>, former: nat, root: nat)
    requires former in trees && root in trees && Fresh(mem, mem1, used, used1, trees[root]) && Frames(trees[former]) <= used
    requires DroppedSpace(mem1, mem', used1, used', trees, trees', former)
    ensures Replaced(mem, mem', used, used', trees[former], trees[root])
  {
    hide Frames, KernelHalf;
    OnlyInTrans(mem, mem1, mem', Frames(trees[root]), Frames(trees[former]), Frames(trees[former]) + Frames(trees[root]));
  }

  lemma FreshAccounts(mem: Memory, mem': Memory, used: set<nat>, used': set<nat>, rest: set<nat>, trees: map<nat, Node>,
                      trees': map<nat, Node>, root: nat)
    requires Accounted(used, rest, trees) && root !in trees && root in trees' && trees' == With(trees, root, trees'[root])
    requires Fresh(mem, mem', used, used', trees'[root]) && Separate(mem, used, trees)
    ensures Accounted(used', rest, trees') && forall r :: r in trees ==> Frames(trees[r]) <= used
  {
    hide Accounted, Frames, OnlyIn, Separate;
    AccountedAdded(used, used', rest, trees, trees', root);
    forall r | r in trees ensures Frames(trees[r]) <= used {
      FramesInUse(mem, used, trees, r);
    }
  }

  lemma BreakPages(heap: nat, request: nat, heap': nat, reached: nat)
    requires BreakMoved(heap, request, heap', reached) && heap <= STACK_BASE && request <= STACK_BASE
    ensures PageUp(heap) <= PageUp(heap') <= PageUp(heap) + reached <= STACK_PAGE && heap' <= STACK_BASE
  {
  }

  /** brk: pages up to the new break for the caller, and nothing else but the leak. Frames that were mapped above the
      break stay in use without belonging to anybody; there are none as long as no call stopped part way. */
  ghost predicate BrkLaw(mem: Memory, mem': Memory, used: set<nat>, used': set<nat>, trees: map<nat, Node>,
                         trees': map<nat, Node>, rest: set<nat>, rest': set<nat>, root: nat, heap: nat, heap': nat,
                         request: nat, reached: nat) {
    && root in trees && root in trees' && trees' == With(trees, root, trees'[root])
    && HeapGrown(mem, mem', used, used', trees[root], trees'[root], PageUp(heap), PageUp(heap) + reached)
    && BreakMoved(heap, request, heap', reached)
    && rest' == rest + FramesOf(Space(trees[root]), PageUp(heap), PageUp(heap) + reached)
    && (Tidy(Space(trees[root]), heap) ==>
          && rest' == rest
          && (Tidy(Space(trees'[root]), heap') <==> PageUp(heap') == PageUp(heap) + reached))
  }

  /** What a brk call does to the books. */
  lemma GrownAccounts(mem: Memory, mem': Memory, used: set<nat>, used': set<nat>, kept: set<nat>, trees: map<nat, Node>,
                      trees': map<nat, Node>, root: nat, heap: nat, heap': nat, request: nat, reached: nat, hhdm: nat,
                      pages: set<nat>, large: map<nat, nat>)
    requires Accounted(used, kept, trees) && Separate(mem, used, trees) && root in trees && HeapApart(kept, hhdm, pages, large)
    requires root in trees' && trees' == With(trees, root, trees'[root])
    requires HeapGrown(mem, mem', used, used', trees[root], trees'[root], PageUp(heap), PageUp(heap) + reached)
    requires BreakMoved(heap, request, heap', reached) && heap <= STACK_BASE && request <= STACK_BASE
    ensures var kept' := kept + FramesOf(Space(trees[root]), PageUp(heap), PageUp(heap) + reached);
            && Accounted(used', kept', trees') && HeapApart(kept', hhdm, pages, large)
            && BrkLaw(mem, mem', used, used', trees, trees', RestOf(kept, hhdm, pages, large),
                      RestOf(kept', hhdm, pages, large), root, heap, heap', request, reached)
  {
    hide Accounted, Separate, Space, Frames, Tidy, PageUp, Grown, Confined, FramesOf, RestOf, HeapApart;
    var lost := FramesOf(Space(trees[root]), PageUp(heap), PageUp(heap) + reached);
    AccountedBrk(mem, mem', used, used', kept, trees, root, trees'[root], lost);
    RestWith(kept, lost, hhdm, pages, large);
    BreakPages(heap, request, heap', reached);
    if Tidy(Space(trees[root]), heap) {
      TidyCall(Space(trees[root]), Space(trees'[root]), heap, heap', reached);
    }
  }

  lemma OwnersSame(roots: map<nat, nat>, pids: set<nat>, trees: map<nat, Node>, trees': map<nat, Node>)
    requires Owners(roots, pids, trees) && trees'.Keys == trees.Keys
    ensures Owners(roots, pids, trees')
  {
  }

  lemma OwnersMove(roots: map<nat, nat>, pids: set<nat>, trees: map<nat, Node>, trees': map<nat, Node>, p: nat, root: nat)
    requires Owners(roots, pids, trees) && p in pids && root !in trees && trees'.Keys == trees.Keys - {roots[p]} + {root}
    ensures Owners(roots[p := root], pids, trees')
    ensures forall q :: q in roots && q != p ==> roots[q] in trees && roots[q] != roots[p] && roots[q] != root
  {
    var roots' := roots[p := root];
    forall r | r in trees' ensures exists q :: q in roots' && roots'[q] == r {
      if r == root {
        assert p in roots' && roots'[p] == r;
      } else {
        var q :| q in roots && roots[q] == r;
        assert q in roots' && roots'[q] == r;
      }
    }
  }

  /** Where no frame of the rest of the kernel changed hands and the same address spaces exist, the same frames are in
      use: fork, exit and wait leak nothing. */
  lemma FramesConserved(used: set<nat>, used': set<nat>, rest: set<nat>, trees: map<nat, Node>)
    requires Accounted(used, rest, trees) && Accounted(used', rest, trees)
    ensures used == used'
  {
    forall f ensures f in used <==> f in used' {
      assert f in used <==> f in rest || InSpace(trees, f);
    }
  }

  /** A child's heap is tidy exactly if its parent's was, so fork carries the leak of a failed brk over. */
  lemma ChildTidy(mem: Memory, mem': Memory, used: set<nat>, used': set<nat>, trees: map<nat, Node>, trees': map<nat, Node>,
                  root: nat, to: nat, heap: nat)
    requires ForkedSpace(mem, mem', used, used', trees, trees', root, to)
    ensures Tidy(Space(trees'[to]), heap) <==> Tidy(Space(trees[root]), heap)
  {
    hide Space, Twin, Frames;
    ClonePages(mem', trees[root], trees'[to]);
  }

  lemma StartOwned(mem: Memory, used: set<nat>, trees: map<nat, Node>, root: nat)
    requires Separate(mem, used, trees) && trees.Keys == {root}
    ensures Owners(map[1 := root], {1}, trees) && Accounted(used, used - Frames(trees[root]), trees)
  {
    hide Frames, TreeOk;
    FramesInUse(mem, used, trees, root);
    assert 1 in map[1 := root];
    forall f ensures InSpace(trees, f) <==> f in Frames(trees[root]) {
      assert root in trees;
    }
  }

  lemma OwnedRoots(roots: map<nat, nat>, pids: set<nat>, trees: map<nat, Node>)
    requires Owners(roots, pids, trees)
    ensures roots.Keys == pids && forall p :: p in pids ==> p in roots && roots[p] in trees
  {
  }

  lemma ForkedTrees(mem: Memory, mem': Memory, used: set<nat>, used': set<nat>, trees: map<nat, Node>,
                    trees': map<nat, Node>, root: nat, to: nat)
    requires ForkedSpace(mem, mem', used, used', trees, trees', root, to)
    ensures to !in trees && to in trees' && trees' == With(trees, to, trees'[to]) && Taken(used, used', Frames(trees'[to]))
  {
  }

  lemma DroppedTrees(mem: Memory, mem': Memory, used: set<nat>, used': set<nat>, trees: map<nat, Node>,
                     trees': map<nat, Node>, root: nat)
    requires DroppedSpace(mem, mem', used, used', trees, trees', root)
    ensures root in trees && trees' == trees - {root}
  {
  }

  // ---- The heap among them.

  /** Frames in use that neither a pagemap nor the heap has. */
  ghost function RestOf(kept: set<nat>, hhdm: nat, pages: set<nat>, large: map<nat, nat>): set<nat> {
    H.Others(kept, hhdm, pages, large)
  }

  /** The heap's frames are among those no pagemap has. */
  ghost predicate HeapApart(kept: set<nat>, hhdm: nat, pages: set<nat>, large: map<nat, nat>) {
    forall f :: H.InHeap(hhdm, pages, large, f) ==> f in kept
  }

  /** The heap depends on the allocator only through its own frames. */
  lemma HeapStillOwned(hhdm: nat, used: set<nat>, used': set<nat>, pages: set<nat>, large: map<nat, nat>, kept: set<nat>)
    requires H.Owned(hhdm, used, pages, large) && HeapApart(kept, hhdm, pages, large) && kept <= used'
    ensures H.Owned(hhdm, used', pages, large)
  {
    forall p | p in pages ensures H.FrameOf(hhdm, p) in used' {
      assert H.InHeap(hhdm, pages, large, H.FrameOf(hhdm, p));
    }
    forall a | a in large ensures H.LargeRun(hhdm, large, a) <= used' {
      forall f | f in H.LargeRun(hhdm, large, a) ensures f in used' {
        assert H.InHeap(hhdm, pages, large, f);
      }
    }
  }

  /** The frames of `used` that no pagemap has. */
  ghost function Unmapped(used: set<nat>, trees: map<nat, Node>): set<nat> {
    set f | f in used && !InSpace(trees, f)
  }

  /** kmalloc and kfree leave the pagemaps and the rest alone. */
  lemma HeapWorked(mem: Memory, used: set<nat>, used': set<nat>, kept: set<nat>, trees: map<nat, Node>, hhdm: nat,
                   pages: set<nat>, large: map<nat, nat>, pages': set<nat>, large': map<nat, nat>)
    requires Accounted(used, kept, trees) && Separate(mem, used, trees) && HeapApart(kept, hhdm, pages, large)
    requires H.Owned(hhdm, used', pages', large')
    requires H.Others(used', hhdm, pages', large') == H.Others(used, hhdm, pages, large)
    ensures Accounted(used', Unmapped(used', trees), trees) && Separate(mem, used', trees)
    ensures HeapApart(Unmapped(used', trees), hhdm, pages', large')
    ensures RestOf(Unmapped(used', trees), hhdm, pages', large') == RestOf(kept, hhdm, pages, large)
  {
    hide Frames, H.InHeap, H.Owned, TreeOk;
    var kept' := Unmapped(used', trees);
    forall f | InSpace(trees, f) ensures f in used' && !H.InHeap(hhdm, pages', large', f) {
      assert f in used && f !in kept;
      assert f in H.Others(used, hhdm, pages, large);
      assert f in H.Others(used', hhdm, pages', large');
    }
    forall r | r in trees ensures Pagemap(mem, used', r, trees[r]) {
      RootHasFrame(mem, used, trees, r);
      assert Frames(trees[r]) <= used' by {
        forall f | f in Frames(trees[r]) ensures f in used' {
          assert InSpace(trees, f);
        }
      }
      PagemapFrame(mem, mem, used, used', r, trees[r]);
    }
    forall f | H.InHeap(hhdm, pages', large', f) ensures f in kept' {
      H.HeapInUse(hhdm, used', pages', large', f);
    }
    forall f ensures f in RestOf(kept', hhdm, pages', large') <==> f in RestOf(kept, hhdm, pages, large) {
      assert f in RestOf(kept', hhdm, pages', large') <==> f in H.Others(used', hhdm, pages', large') && !InSpace(trees, f);
      assert f in RestOf(kept, hhdm, pages, large) <==> f in H.Others(used, hhdm, pages, large) && !InSpace(trees, f);
    }
  }

  /** Frames a pagemap loses join the rest. */
  lemma RestWith(kept: set<nat>, lost: set<nat>, hhdm: nat, pages: set<nat>, large: map<nat, nat>)
    requires HeapApart(kept, hhdm, pages, large) && kept !! lost
    ensures RestOf(kept + lost, hhdm, pages, large) == RestOf(kept, hhdm, pages, large) + lost
    ensures HeapApart(kept + lost, hhdm, pages, large)
  {
    hide H.InHeap;
  }

  // ---- What an entry stores through a user pointer.

  datatype Store = Store(addr: nat, data: seq<byte>)

  /** An int, as it lies in memory. */
  function IntBytes(x: int): (b: seq<byte>)
    ensures |b| == 4 && b[0] as int + 256 * b[1] as int + 65536 * b[2] as int + 16777216 * b[3] as int == x % TWO32
  {
    var n := x % TWO32;
    FourBytes(n);
    [n % 256, n / 256 % 256, n / 65536 % 256, n / 16777216 % 256]
  }

  lemma FourBytes(n: nat)
    requires n < TWO32
    ensures n % 256 + 256 * (n / 256 % 256) + 65536 * (n / 65536 % 256) + 16777216 * (n / 16777216 % 256) == n
  {
    assert n / 65536 == n / 256 / 256;
    assert n / 16777216 == n / 65536 / 256;
    assert n / 16777216 < 256;
  }

  /** read fills the caller's buffer, wait stores the exit status if it got a pointer, and gettimeofday the time. */
  ghost function StoreOf(s: State, e: Event, clock: seq<byte>): Store
    requires s.curr in s.procs
  {
    if !e.Syscall? then Store(0, [])
    else if e.r.rax == 0 then Store(e.r.rsi, Given(s, e.r))
    else if e.r.rax == 61 && e.r.rdi != 0 && FirstZombie(s.procs, s.curr, 0).Some? then
      Store(e.r.rdi, IntBytes(s.procs[FirstZombie(s.procs, s.curr, 0).value].status))
    else if e.r.rax == 96 then Store(e.r.rdi, clock)
    else Store(0, [])
  }

  /** A range of user memory an entry reads. */
  datatype Fetch = Fetch(addr: nat, count: nat)

  /** write reads the caller's buffer if a device takes it. */
  ghost function FetchOf(s: State, e: Event): Fetch
    requires s.curr in s.procs
  {
    if e.Syscall? && Writes(s.procs, s.curr, s.files, e.r) then Fetch(e.r.rsi, e.r.rdx) else Fetch(0, 0)
  }

  predicate Writes(procs: Procs, curr: nat, files: Files, r: Regs)
    requires curr in procs
  {
    var fd, fds := Signed(r.rdi), procs[curr].fds;
    && r.rax == 1 && FdValid(fd, fds) && fds[fd] in files
    && !files[fds[fd]].backing.Regular? && files[fds[fd]].backing != Keyboard
  }

  /** The entry finds every page of user memory it needs. */
  ghost predicate Reachable(s: State, e: Event, clock: seq<byte>, tree: Node)
    requires s.curr in s.procs
  {
    && CanStore(tree, StoreOf(s, e, clock).addr, |StoreOf(s, e, clock).data|)
    && CanFetch(tree, FetchOf(s, e).addr, FetchOf(s, e).count)
  }

  /** read would copy more than was loaded when the file was opened. */
  predicate ReadOverruns(procs: Procs, curr: nat, files: Files, r: Regs)
    requires curr in procs
  {
    var fd, fds := Signed(r.rdi), procs[curr].fds;
    r.rax == 0 && FdValid(fd, fds) && fds[fd] in files && Overruns(files[fds[fd]], r.rdx)
  }

  /** The entry leaves the lower half of the address space. */
  predicate Strays(store: Store, fetch: Fetch) {
    || (store.data != [] && store.addr + |store.data| > LOWER_END)
    || (fetch.count > 0 && fetch.addr + fetch.count > LOWER_END)
  }

  /** An entry whose outcome the source leaves to chance: a buffer outside the lower half, a read beyond what was loaded,
      or a fork with too few free frames. */
  ghost predicate Astray(s: State, e: Event, clock: seq<byte>, tree: Node, free: nat)
    requires Enabled(s, e)
  {
    || (e.Syscall? && ReadOverruns(s.procs, s.curr, s.files, e.r))
    || (Step(s, e).Next? && (Strays(StoreOf(s, e, clock), FetchOf(s, e)) || (IsFork(e) && Size(tree) > free)))
  }

  /** What a kernel entry does to memory and breaks; `mid` is memory once the caller's buffer is filled. */
  ghost predicate EntryLaw(s: State, e: Event, clock: seq<byte>, rax: nat, mem: Memory, mid: Memory, mem': Memory,
                           used: set<nat>, used': set<nat>, trees: map<nat, Node>, trees': map<nat, Node>,
                           roots: map<nat, nat>, roots': map<nat, nat>, breaks: map<nat, nat>, breaks': map<nat, nat>) {
    && s.curr in s.procs && s.curr in roots && roots[s.curr] in trees && s.curr in breaks
    && StoredAt(mem, mid, trees[roots[s.curr]], StoreOf(s, e, clock).addr, StoreOf(s, e, clock).data)
    && MemoryLaw(s, e, rax, mid, mem', used, used', trees, trees', roots, roots')
    && breaks' == BreaksAfter(s, e, rax, breaks)
  }

  /** wait returns the zombie it reaps, whose status it stores. */
  lemma WaitStore(s: State, e: Event)
    requires Inv(s) && Enabled(s, e) && e.Syscall? && e.r.rax == 61 && Step(s, e).Next?
    ensures FirstZombie(s.procs, s.curr, 0).Some? <==> Step(s, e).regs.rax in s.procs && Step(s, e).regs.rax !in Step(s, e).s.procs
    ensures FirstZombie(s.procs, s.curr, 0).Some? ==> Step(s, e).regs.rax == FirstZombie(s.procs, s.curr, 0).value
  {
    hide Inv, LoadNext, Blocked, HasChild;
    RunsNow(s);
    StepTable(s, e);
    var r := UserSegments(e.r);
    assert Handled(s, r, e) == Waited(s, r);
    var z := FirstZombie(s.procs, s.curr, 0);
    if z.Some? {
      assert z.value != s.curr;
      assert Step(s, e) == Waited(s, r);
    } else {
      NoZombie(s);
    }
  }

  lemma NoZombie(s: State)
    requires Inv(s) && FirstZombie(s.procs, s.curr, 0).None?
    ensures forall z :: !ZombieChild(s.procs, z, s.curr)
  {
    hide Placed, Parents, NoLostWakeup, FilesOk;
  }

  lemma KeptInUse(used: set<nat>, kept: set<nat>, trees: map<nat, Node>)
    requires Accounted(used, kept, trees)
    ensures kept <= used
  {
  }

  /** Size counts the root table and everything below it. */
  lemma SizeOfTree(mem: Memory, used: set<nat>, trees: map<nat, Node>, root: nat)
    requires Separate(mem, used, trees) && root in trees
    ensures trees[root].Branch? && Size(trees[root]) == 1 + KidSize(trees[root].kids, |trees[root].kids|)
    ensures Source(mem, used, root, trees[root].kids, TOP_LEVEL)
  {
    RootHasFrame(mem, used, trees, root);
    PagemapIsSource(mem, used, trees[root]);
  }

  /** Only an entry that completes uses user memory. */
  lemma StoreThenNext(s: State, e: Event, clock: seq<byte>)
    requires Inv(s) && Enabled(s, e) && !Step(s, e).Next? && (e.Syscall? ==> FreshFile(s, e.found, e.id))
    ensures StoreOf(s, e, clock).data == [] && FetchOf(s, e).count == 0
  {
    hide Inv, LoadNext, Blocked, HasChild, FirstZombie, Clip, Exited, Forked, OpenCall, CloseCall, DupCall, Dup2Call, SeekCall,
         Killed;
    if e.Syscall? {
      RunsNow(s);
    }
  }

  /** mem' differs from mem only in frames no pagemap has. */
  ghost predicate OnOwnFrames(mem: Memory, mem': Memory, trees: map<nat, Node>) {
    mem'.Keys == mem.Keys && forall f :: f in mem && mem'[f] != mem[f] ==> !InSpace(trees, f)
  }

  lemma OwnFramesOnly(mem: Memory, mem': Memory, kept: set<nat>, used: set<nat>, trees: map<nat, Node>, addr: nat,
                      data: seq<byte>)
    requires Copied(mem, mem', addr, data) && Accounted(used, kept, trees)
    requires forall v: nat :: addr <= v < addr + |data| ==> PageOf(v) in kept
    ensures OnOwnFrames(mem, mem', trees)
  {
    hide InSpace, ByteAt;
    forall f | f in mem && mem'[f] != mem[f] ensures !InSpace(trees, f) {
      assert Touched(addr, |data|, f);
    }
  }

  /** Writing into frames no pagemap has disturbs none. */
  lemma OwnWritesSeparate(mem: Memory, mem': Memory, used: set<nat>, trees: map<nat, Node>)
    requires Separate(mem, used, trees) && OnOwnFrames(mem, mem', trees)
    ensures Separate(mem', used, trees)
  {
    hide Frames, TreeOk;
    forall r | r in trees ensures Pagemap(mem', used, r, trees[r]) {
      RootHasFrame(mem, used, trees, r);
      FramesInUse(mem, used, trees, r);
      forall f | f in Frames(trees[r]) && f in mem ensures f in mem' && mem'[f] == mem[f] {
        assert InSpace(trees, f);
      }
      PagemapFrame(mem, mem', used, used, r, trees[r]);
    }
  }
}
