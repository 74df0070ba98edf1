/** The context a process is dispatched with, over every run; and when init's wait can miss a zombie. */
module ProcContexts {
  import opened Machine
  import opened Vfs
  import opened ProcSpec
  import opened ProcInv
  import opened ProcRuns

  // ---- Contexts.

  /** What a process that leaves the processor in this entry should be resumed with, told from the registers at entry. */
  ghost function LeaveContext(e: Event): Regs
    requires !e.Wake?
  {
    if e.Syscall? then Restart(e.r) else e.r
  }

  /** A fork child resumes where its parent called, with 0 as the result. */
  ghost function ForkContext(e: Event): Regs
    requires !e.Wake?
  {
    UserSegments(e.r).(rax := 0)
  }

  /** The context process p should be resumed with after a step, kept from outside the kernel. */
  ghost function ExpectedOf(h: nat -> Regs, s: State, e: Event, s': State, p: nat): Regs {
    if e.Wake? then h(p)
    else if p in s'.procs && p !in s.procs then ForkContext(e)
    else if Running(s, p) && !Running(s', p) then LeaveContext(e)
    else h(p)
  }

  ghost function Expected(h: nat -> Regs, s: State, e: Event, s': State): nat -> Regs {
    (p: nat) => ExpectedOf(h, s, e, s', p)
  }

  /** Every process off the processor has the context expected for it. */
  ghost predicate Agrees(s: State, h: nat -> Regs) {
    forall p :: p in s.procs && !Running(s, p) && s.procs[p].state != Zombie ==> s.procs[p].saved == h(p)
  }

  /** A process stays dead, with its exit status, and stays condemned. */
  ghost predicate Persists(was: Proc, now: Proc) {
    (was.state == Zombie ==> now.state == Zombie && now.status == was.status) && (was.kill ==> now.kill)
  }

  /** No process appeared, no saved context changed, zombies stayed zombies, and nobody was pardoned. */
  ghost predicate Untouched(s: State, s': State) {
    forall p :: p in s'.procs ==>
      p in s.procs && s'.procs[p].saved == s.procs[p].saved && Persists(s.procs[p], s'.procs[p])
  }

  lemma ReadFrame(s: State, r: Regs)
    requires s.curr in s.procs && s.procs[s.curr].state == Runs && ReadCall(s, r).Next?
    ensures Untouched(s, ReadCall(s, r).s) && ReadCall(s, r).regs == r.(rax := ReadCall(s, r).regs.rax)
  {
    hide Clip, Moved;
  }

  lemma FileCallsFrame(s: State, r: Regs, e: Event)
    requires s.curr in s.procs && e.Syscall? && Handled(s, r, e).Next? && r.rax in {1, 2, 3, 8, 32, 33}
    ensures Untouched(s, Handled(s, r, e).s) && Handled(s, r, e).regs == r.(rax := Handled(s, r, e).regs.rax)
  {
    hide Closed, Shared, Seek, FirstNull;
  }

  lemma WaitedFrame(s: State, r: Regs)
    requires s.curr in s.procs && s.procs[s.curr].state == Runs && Waited(s, r).Next?
    ensures Untouched(s, Waited(s, r).s) && Waited(s, r).regs == r.(rax := Waited(s, r).regs.rax)
  {
  }

  lemma ExitedFrame(s: State, status: int, r: Regs)
    requires Inv(s) && !s.idle && Exited(s, status, r).Next?
    ensures Untouched(s, Exited(s, status, r).s) && Exited(s, status, r).regs == r
    ensures Exited(s, status, r).s.procs.Keys == s.procs.Keys && Exited(s, status, r).s.curr == s.curr
  {
    hide Inv, ClosedAll, Buried;
    RunsNow(s);
    ExitedInv(s, status, r);
    BuriedFacts(s.procs, s.curr, status);
    BuriedSaved(s.procs, s.curr, status);
  }

  lemma BuriedSaved(procs: Procs, p: nat, status: int)
    requires p in procs
    ensures Buried(procs, p, status)[p].saved == procs[p].saved
  {
  }

  lemma ForkedFrame(s: State, r: Regs)
    requires s.curr in s.procs && Forked(s, r).Next?
    ensures var s' := Forked(s, r).s;
            forall p :: p in s'.procs ==> if p in s.procs then s'.procs[p] == s.procs[p] else s'.procs[p].saved == r.(rax := 0)
    ensures Forked(s, r).regs == r.(rax := Forked(s, r).regs.rax)
  {
    hide SharedAll;
  }

  lemma KilledFrame(s: State, r: Regs)
    ensures Killed(s, r).Next? && Untouched(s, Killed(s, r).s) && Killed(s, r).regs == r.(rax := Killed(s, r).regs.rax)
  {
    hide IntArg;
  }

  ghost predicate EntryOk(s: State, s1: State, r: Regs, p: nat)
    requires p in s1.procs
  {
    if p in s.procs then s1.procs[p].saved == s.procs[p].saved && Persists(s.procs[p], s1.procs[p])
    else s1.procs[p].saved == r.(rax := 0)
  }

  /** The live context after a call that does not block: a new program after execve, else only a result in rax. */
  ghost function Continued(r: Regs, e: Event, result: u64): Regs
    requires e.Syscall?
  {
    if r.rax == 59 && e.entry.Some? then Started(r, e.entry.value) else r.(rax := result)
  }

  /** A handler changes no saved context, and of the live one only rax unless execve succeeds; a new process starts with
      rax 0. */
  lemma HandledFrame(s: State, r: Regs, e: Event)
    requires Inv(s) && !s.idle && e.Syscall? && Handled(s, r, e).Next?
    ensures forall p :: p in Handled(s, r, e).s.procs ==> EntryOk(s, Handled(s, r, e).s, r, p)
    ensures Handled(s, r, e).regs == Continued(r, e, Handled(s, r, e).regs.rax)
    ensures r.rax == 59 ==> Handled(s, r, e).s == s
  {
    hide Inv, WriteCall, Exited, Forked, Waited, Killed, ReadCall, IntArg, OpenCall, CloseCall, DupCall, Dup2Call, SeekCall;
    RunsNow(s);
    if r.rax == 0 {
      ReadFrame(s, r);
    } else if r.rax in {1, 2, 3, 8, 32, 33} {
      FileCallsFrame(s, r, e);
    } else if r.rax == 57 {
      ForkedFrame(s, r);
    } else if r.rax == 60 {
      ExitedFrame(s, IntArg(r.rdi), r);
    } else if r.rax == 61 {
      WaitedFrame(s, r);
    } else if r.rax == 62 {
      KilledFrame(s, r);
    }
  }

  /** What one step does to contexts: the dispatched process gets the one expected for it; a process that stays on the
      processor keeps its registers except for the result of its call, or starts a new program if it called execve. */
  ghost predicate ContextLaw(s: State, e: Event, h: nat -> Regs)
    requires Enabled(s, e) && Step(s, e).Next?
  {
    var s', regs := Step(s, e).s, Step(s, e).regs;
    var h' := Expected(h, s, e, s');
    && Agrees(s', h')
    && (Dispatches(s, s') ==> regs == h'(s'.curr))
    && (Running(s, s.curr) && Running(s', s.curr) && !e.Wake? ==>
          regs == if e.Syscall? then Continued(UserSegments(e.r), e, regs.rax) else e.r)
  }

  /** Taking the head of the queue from a state in which nobody runs. */
  lemma LoadNextContext(s: State, s2: State, r: Regs, h: nat -> Regs)
    requires LoadNext(s2, r).Next? && Inv(s2.(idle := true))
    requires Agrees(s2.(idle := true), h)
    ensures Agrees(LoadNext(s2, r).s, h)
    ensures Dispatches(s, LoadNext(s2, r).s) ==> LoadNext(s2, r).regs == h(LoadNext(s2, r).s.curr)
  {
    hide WaitOk, ParentOk, FilesOk, NoDup;
    var ready := Queue(s2, Runnable);
    if ready != [] {
      assert ready[0] in ready && PlaceOk(s2.(idle := true), ready[0]);
    }
  }

  lemma LoadNextFrame(s: State, s2: State, r: Regs)
    requires LoadNext(s2, r).Next? && s.curr !in Queue(s2, Runnable)
    ensures var s' := LoadNext(s2, r).s; s'.procs == s2.procs && !Running(s', s.curr)
  {
  }

  lemma SyscallContext(s: State, e: Event, h: nat -> Regs)
    requires Inv(s) && !s.idle && e.Syscall? && Enabled(s, e) && SyscallStep(s, e).Next? && Agrees(s, h)
    ensures ContextLaw(s, e, h)
  {
    hide Inv, Handled, LoadNext, Queue;
    var r := UserSegments(e.r);
    RunsNow(s);
    HandledInv(s, r, e);
    HandledFrame(s, r, e);
    var s1, r1 := Handled(s, r, e).s, Handled(s, r, e).regs;
    var s', h' := Step(s, e).s, Expected(h, s, e, Step(s, e).s);
    if s1.procs[s.curr].state == Runs {
      forall p | p in s1.procs && !Running(s1, p) && s1.procs[p].state != Zombie ensures s1.procs[p].saved == h'(p) {
        assert EntryOk(s, s1, r, p);
      }
    } else {
      var r2 := Restart(e.r);
      var s2 := s1.(procs := s1.procs[s.curr := s1.procs[s.curr].(saved := r2)]);
      assert Step(s, e) == LoadNext(s2, r2);
      SavedInv(s1.(idle := true), s.curr, r2);
      OffProcessor(s1);
      QueueKept(s1, s2);
      LoadNextFrame(s, s2, r2);
      LeaveAgrees(s, e, h, s1, s');
      LoadNextContext(s, s2, r2, h');
    }
  }

  lemma QueueKept(s: State, s': State)
    requires s'.lists == s.lists
    ensures Queue(s', Runnable) == Queue(s, Runnable)
  {
  }

  /** After the tail has saved the restart context, contexts are as expected. */
  lemma LeaveAgrees(s: State, e: Event, h: nat -> Regs, s1: State, s': State)
    requires !s.idle && e.Syscall? && s.curr in s.procs && Agrees(s, h) && s1.curr == s.curr && s.curr in s1.procs
    requires forall p :: p in s1.procs ==> EntryOk(s, s1, UserSegments(e.r), p)
    requires s'.procs.Keys == s1.procs.Keys && !Running(s', s.curr)
    ensures Agrees(s1.(procs := s1.procs[s.curr := s1.procs[s.curr].(saved := Restart(e.r))], idle := true),
                   Expected(h, s, e, s'))
  {
    var s2 := s1.(procs := s1.procs[s.curr := s1.procs[s.curr].(saved := Restart(e.r))], idle := true);
    var h' := Expected(h, s, e, s');
    forall p | p in s2.procs && s2.procs[p].state != Zombie ensures s2.procs[p].saved == h'(p) {
      assert EntryOk(s, s1, UserSegments(e.r), p);
    }
  }

  lemma SwitchedContext(s: State, r: Regs, h: nat -> Regs, e: Event)
    requires Inv(s) && !s.idle && s.curr in s.procs && Switched(s, r).Next? && Agrees(s, h)
    requires (e.Tick? || (e.Fault? && s.procs[s.curr].kill)) && e.r == r
    ensures var s', regs := Switched(s, r).s, Switched(s, r).regs;
            var h' := Expected(h, s, e, s');
            && Agrees(s', h')
            && (Dispatches(s, s') ==> regs == h'(s'.curr))
            && (Running(s', s.curr) ==> regs == r)
  {
    hide Inv, Exited, LoadNext, Queue;
    NotQueued(s);
    var s', h' := Switched(s, r).s, Expected(h, s, e, Switched(s, r).s);
    if s.procs[s.curr].kill {
      var s2 := Exited(s, KILL_STATUS, r).s;
      ExitedInv(s, KILL_STATUS, r);
      ExitedFrame(s, KILL_STATUS, r);
      OffProcessor(s2);
      LoadNextFrame(s, s2, r);
      forall p | p in s2.procs && s2.procs[p].state != Zombie ensures s2.procs[p].saved == h'(p) {
        assert p in s.procs && s.procs[p].state != Zombie;
      }
      LoadNextContext(s, s2, r, h');
    } else if Queue(s, Runnable) != [] {
      PreemptContext(s, r, h, e);
    }
  }

  lemma PreemptContext(s: State, r: Regs, h: nat -> Regs, e: Event)
    requires Inv(s) && !s.idle && s.curr in s.procs && s.curr !in Queue(s, Runnable) && Queue(s, Runnable) != []
    requires Agrees(s, h) && !e.Wake? && !e.Syscall? && e.r == r
    ensures var s2 := Enqueued(Saved(s, r), Runnable, s.curr);
            LoadNext(s2, r).Next? ==>
              var s' := LoadNext(s2, r).s;
              var h' := Expected(h, s, e, s');
              Agrees(s', h') && !Running(s', s.curr) && (Dispatches(s, s') ==> LoadNext(s2, r).regs == h'(s'.curr))
  {
    hide Inv;
    var s2 := Enqueued(Saved(s, r), Runnable, s.curr);
    if LoadNext(s2, r).Next? {
      var h' := Expected(h, s, e, LoadNext(s2, r).s);
      assert Queue(s, Runnable)[0] in Queue(s, Runnable);
      PreemptedInv(s, r);
      LoadNextContext(s, s2, r, h');
    }
  }

  /** Whatever steps interleave, each process is dispatched with the context last saved for it. */
  lemma StepContext(s: State, e: Event, h: nat -> Regs)
    requires Inv(s) && Enabled(s, e) && Step(s, e).Next? && Agrees(s, h)
    ensures ContextLaw(s, e, h)
  {
    hide Inv, Switched, SyscallStep, KeyStep, LoadNext;
    match e
    case Tick(r) =>
      if !s.idle {
        SwitchedContext(s, r, h, e);
      }
    case Fault(r) =>
      var s1 := s.(procs := s.procs[s.curr := s.procs[s.curr].(kill := true)]);
      CondemnedInv(s);
      assert Agrees(s1, h);
      SwitchedContext(s1, r, h, e);
      forall p: nat ensures Expected(h, s1, e, Step(s, e).s)(p) == Expected(h, s, e, Step(s, e).s)(p) {
        ExpectedSame(h, s, s1, e, Step(s, e).s, p);
      }
    case Key(scan, _) => KeyContext(s, scan);
    case Wake =>
      LoadNextInv(s, s.procs[s.curr].saved);
      LoadNextContext(s, s, s.procs[s.curr].saved, h);
      LoadNextSame(s, s.procs[s.curr].saved);
    case Syscall(_, _, _, _, _) => SyscallContext(s, e, h);
  }

  lemma ExpectedSame(h: nat -> Regs, s: State, s1: State, e: Event, s': State, p: nat)
    requires s1.procs.Keys == s.procs.Keys && s1.curr == s.curr && s1.idle == s.idle
    ensures Expected(h, s1, e, s')(p) == Expected(h, s, e, s')(p)
  {
    assert p in s1.procs <==> p in s.procs;
    assert ExpectedOf(h, s1, e, s', p) == ExpectedOf(h, s, e, s', p);
  }

  lemma LoadNextSame(s: State, r: Regs)
    requires LoadNext(s, r).Next?
    ensures LoadNext(s, r).s.procs == s.procs
  {
  }

  lemma KeyContext(s: State, scan: nat)
    requires Inv(s)
    ensures var s' := KeyStep(s, scan);
            s'.curr == s.curr && s'.idle == s.idle && s'.procs.Keys == s.procs.Keys && Untouched(s, s')
  {
    hide WaitOk, ParentOk, FilesOk, PlaceOk, NoDup, WokenAll;
    if scan < |SCAN_CODES| {
      var keys := if |s.keys| < RING_CAPACITY then s.keys + [SCAN_CODES[scan]] else s.keys;
      var s1 := s.(keys := keys);
      PlacedKept(s, s1);
      WokenPlaced(s1, Keys);
      WokenFrame(s1, Keys);
    }
  }

  /** The contexts expected after a run. */
  ghost function History(h: nat -> Regs, s: State, es: seq<Event>): nat -> Regs
    requires RunOk(s, es)
    decreases |es|
  {
    if es == [] then h
    else History(Expected(h, s, es[0], Step(s, es[0]).s), Step(s, es[0]).s, es[1..])
  }

  /** Over any run the saved contexts are the expected ones; with StepContext, so is every context that is loaded. */
  lemma {:induction false} RunContexts(s: State, es: seq<Event>, h: nat -> Regs)
    requires Inv(s) && RunOk(s, es) && Agrees(s, h)
    ensures Inv(After(s, es)) && Agrees(After(s, es), History(h, s, es))
    decreases |es|
  {
    hide Inv, Step, Enabled, Agrees, Expected;
    if es != [] {
      StepInv(s, es[0]);
      StepContext(s, es[0], h);
      RunContexts(Step(s, es[0]).s, es[1..], Expected(h, s, es[0], Step(s, es[0]).s));
    }
  }

  // ---- What wait and kill mean to a process.

  /** wait reaps the lowest zombie child and nothing else, blocks while there are only living ones, and fails without
      children. */
  lemma WaitMeaning(s: State, r: Regs)
    requires Inv(s) && !s.idle
    ensures Waited(s, r).Next?
    ensures var s', rax := Waited(s, r).s, Waited(s, r).regs.rax;
            if (exists c :: ZombieChild(s.procs, c, s.curr)) then
              && ZombieChild(s.procs, rax, s.curr) && (forall c :: ZombieChild(s.procs, c, s.curr) ==> rax <= c)
              && s'.procs == s.procs - {rax} && s.curr in s'.procs && s'.procs[s.curr].state == Runs
            else if (exists c :: ChildOf(s.procs, c, s.curr)) then
              s.curr in s'.procs && s'.procs[s.curr].state == Waits && Queue(s', WaitOf(s.curr)) == [s.curr]
            else s' == s && rax == MINUS_ONE
  {
    hide Placed, Parents, NoLostWakeup, FilesOk;
    CurrWaitsForNobody(s);
    if FirstZombie(s.procs, s.curr, 0).None? {
      NoZombieChild(s);
      if c: nat :| ChildOf(s.procs, c, s.curr) {
        assert !ZombieChild(s.procs, c, s.curr);
        assert LiveChild(s.procs, c, s.curr) && c < MAX_PIDS && HasChild(s.procs, s.curr, MAX_PIDS);
      }
    }
  }

  /** A process with kill_signal set is a zombie with status 139 after the next tick it runs into. */
  lemma KillTakesEffect(s: State, r: Regs)
    requires Inv(s) && !s.idle && s.curr in s.procs && s.procs[s.curr].kill && Step(s, Tick(r)).Next?
    ensures var s' := Step(s, Tick(r)).s;
            s.curr in s'.procs && s'.procs[s.curr].state == Zombie && s'.procs[s.curr].status == KILL_STATUS
  {
    hide Inv, ClosedAll, WokenAll, LoadNext;
    ExitedInv(s, KILL_STATUS, r);
    var s1 := Exited(s, KILL_STATUS, r).s;
    LoadNextSame(s1, r);
    DeadStatus(s, KILL_STATUS, r);
  }

  lemma DeadStatus(s: State, status: int, r: Regs)
    requires s.curr in s.procs && Exited(s, status, r).Next? && s.curr in Exited(s, status, r).s.procs
    ensures Exited(s, status, r).s.procs[s.curr].status == status
  {
    hide ClosedAll;
  }

  // ---- When init's wait misses a zombie.

  /** Init waits although it has a zombie to reap. */
  ghost predicate InitStuck(s: State) {
    Queue(s, WaitOf(1)) != [] && exists c :: ZombieChild(s.procs, c, 1)
  }

  /** The current process dies in this step. */
  ghost predicate Exits(s: State, e: Event)
    requires s.curr in s.procs
  {
    !s.idle && ((e.Tick? && s.procs[s.curr].kill) || e.Fault? || (e.Syscall? && e.r.rax == 60))
  }

  /** Init got no new zombie, and it did not start to wait while it had one. */
  ghost predicate Tame(s: State, s': State) {
    && (forall c :: ZombieChild(s'.procs, c, 1) ==> ZombieChild(s.procs, c, 1))
    && (Queue(s', WaitOf(1)) != [] ==> Queue(s, WaitOf(1)) != [] || forall c :: !ZombieChild(s.procs, c, 1))
  }

  lemma TameTrans(s: State, s1: State, s2: State)
    requires Tame(s, s1) && s2.procs.Keys == s1.procs.Keys && Queue(s2, WaitOf(1)) == Queue(s1, WaitOf(1))
    requires forall p :: p in s1.procs ==> s2.procs[p].ppid == s1.procs[p].ppid && s2.procs[p].state == s1.procs[p].state
    ensures Tame(s, s2)
  {
    forall c | ZombieChild(s2.procs, c, 1) ensures ZombieChild(s.procs, c, 1) {
      assert ZombieChild(s1.procs, c, 1);
    }
  }

  lemma ReadTame(s: State, r: Regs)
    requires s.curr in s.procs && s.procs[s.curr].state == Runs && ReadCall(s, r).Next?
    ensures Tame(s, ReadCall(s, r).s)
  {
    hide Clip, Moved;
  }

  lemma FileCallsTame(s: State, r: Regs, e: Event)
    requires s.curr in s.procs && e.Syscall? && Handled(s, r, e).Next? && r.rax in {1, 2, 3, 8, 32, 33}
    ensures Tame(s, Handled(s, r, e).s)
  {
    hide Closed, Shared, Seek, FirstNull;
  }

  lemma WaitedTame(s: State, r: Regs)
    requires Inv(s) && !s.idle && Waited(s, r).Next?
    ensures Tame(s, Waited(s, r).s)
  {
    hide Inv, HasChild;
    RunsNow(s);
    if FirstZombie(s.procs, s.curr, 0).None? {
      InvShape(s);
      NoZombieChild(s);
    }
  }

  lemma InvShape(s: State)
    requires Inv(s)
    ensures Shape(s)
  {
  }

  lemma ForkedTame(s: State, r: Regs)
    requires Inv(s) && !s.idle && Forked(s, r).Next?
    ensures Tame(s, Forked(s, r).s)
  {
    hide SharedAll, Placed, Parents, NoLostWakeup, FilesOk;
  }

  lemma HandledTame(s: State, r: Regs, e: Event)
    requires Inv(s) && !s.idle && e.Syscall? && Handled(s, r, e).Next? && r.rax != 60
    ensures Tame(s, Handled(s, r, e).s)
  {
    hide Inv, Exited, Forked, Waited, ReadCall, IntArg, OpenCall, CloseCall, DupCall, Dup2Call, SeekCall;
    RunsNow(s);
    if r.rax == 0 {
      ReadTame(s, r);
    } else if r.rax in {1, 2, 3, 8, 32, 33} {
      FileCallsTame(s, r, e);
    } else if r.rax == 57 {
      ForkedTame(s, r);
    } else if r.rax == 61 {
      WaitedTame(s, r);
    }
  }

  lemma LoadNextQueues(s: State, r: Regs)
    requires LoadNext(s, r).Next?
    ensures Queue(LoadNext(s, r).s, WaitOf(1)) == Queue(s, WaitOf(1)) && LoadNext(s, r).s.procs == s.procs
  {
  }

  lemma SyscallTame(s: State, e: Event)
    requires Inv(s) && !s.idle && e.Syscall? && s.curr in s.procs && SyscallStep(s, e).Next? && e.r.rax != 60
    ensures Tame(s, SyscallStep(s, e).s)
  {
    hide Inv, Handled, LoadNext, Tame;
    var r := UserSegments(e.r);
    HandledTame(s, r, e);
    HandledInv(s, r, e);
    var s1, r1 := Handled(s, r, e).s, Handled(s, r, e).regs;
    if s1.procs[s.curr].state != Runs {
      var r2 := r1.(rax := e.r.rax, rip := Sub64(r1.rip, 2));
      var s2 := s1.(procs := s1.procs[s.curr := s1.procs[s.curr].(saved := r2)]);
      LoadNextQueues(s2, r2);
      TameTrans(s, s1, LoadNext(s2, r2).s);
    }
  }

  lemma SwitchedTame(s: State, r: Regs)
    requires s.curr in s.procs && !s.procs[s.curr].kill && Switched(s, r).Next?
    ensures Tame(s, Switched(s, r).s)
  {
    hide LoadNext;
    if Queue(s, Runnable) != [] {
      LoadNextQueues(Enqueued(Saved(s, r), Runnable, s.curr), r);
    }
  }

  lemma KeyTame(s: State, scan: nat)
    requires Inv(s)
    ensures Tame(s, KeyStep(s, scan))
  {
    hide Placed, Parents, NoLostWakeup, FilesOk, WokenAll;
    if scan < |SCAN_CODES| {
      var keys := if |s.keys| < RING_CAPACITY then s.keys + [SCAN_CODES[scan]] else s.keys;
      var s1 := s.(keys := keys);
      PlacedKept(s, s1);
      WokenPlaced(s1, Keys);
      assert forall c :: ZombieChild(KeyStep(s, scan).procs, c, 1) ==> ZombieChild(s.procs, c, 1);
    }
  }

  lemma StepTame(s: State, e: Event)
    requires Inv(s) && Enabled(s, e) && Step(s, e).Next? && !Exits(s, e)
    ensures Tame(s, Step(s, e).s)
  {
    hide Inv, Switched, SyscallStep, KeyStep, LoadNext;
    match e
    case Tick(r) =>
      if !s.idle {
        SwitchedTame(s, r);
      }
    case Fault(r) =>
    case Key(scan, _) => KeyTame(s, scan);
    case Wake => LoadNextQueues(s, s.procs[s.curr].saved);
    case Syscall(_, _, _, _, _) => SyscallTame(s, e);
  }

  /** A process that exits hands its zombies to init, whose wait queue is woken only if init is its parent. */
  ghost predicate HandsOver(s: State)
    requires s.curr in s.procs
  {
    Queue(s, WaitOf(1)) != [] && s.procs[s.curr].ppid != 1 && exists c :: ZombieChild(s.procs, c, s.curr)
  }

  lemma ExitedQueues(s: State, status: int, r: Regs)
    requires Inv(s) && !s.idle && Exited(s, status, r).Next? && s.curr != 1
    ensures Queue(Exited(s, status, r).s, WaitOf(1)) == if s.procs[s.curr].ppid == 1 then [] else Queue(s, WaitOf(1))
  {
    hide ClosedAll, Placed, NoLostWakeup, FilesOk;
    assert ParentOk(s.procs, s.curr);
  }

  lemma BuriedChild(procs: Procs, p: nat, status: int, c: nat)
    requires p in procs
    ensures ZombieChild(Buried(procs, p, status), c, 1) <==>
              (ChildOf(procs, c, 1) || ChildOf(procs, c, p)) && (c == p || procs[c].state == Zombie)
  {
  }

  lemma ExitHandsOver(s: State, status: int, r: Regs)
    requires Inv(s) && !s.idle && Exited(s, status, r).Next? && !InitStuck(s)
    ensures InitStuck(Exited(s, status, r).s) <==> HandsOver(s)
  {
    hide Inv, Exited, Buried;
    ExitedInv(s, status, r);
    ExitedQueues(s, status, r);
    RunsNow(s);
    var s', procs := Exited(s, status, r).s, Buried(s.procs, s.curr, status);
    if InitStuck(s') {
      var c :| ZombieChild(s'.procs, c, 1);
      assert ZombieChild(procs, c, 1);
      BuriedChild(s.procs, s.curr, status, c);
      NoSelfParent(s);
      assert c != s.curr && !ZombieChild(s.procs, c, 1);
      assert ZombieChild(s.procs, c, s.curr);
    }
    if HandsOver(s) {
      var c :| ZombieChild(s.procs, c, s.curr);
      BuriedChild(s.procs, s.curr, status, c);
      assert ZombieChild(s'.procs, c, 1);
    }
  }

  lemma NoSelfParent(s: State)
    requires Inv(s) && s.curr != 1
    ensures s.curr in s.procs && s.procs[s.curr].ppid != s.curr
  {
    assert ParentOk(s.procs, s.curr);
  }

  /** Exactly when a step leaves init waiting beside a zombie it should reap. */
  lemma InitMissesZombie(s: State, e: Event)
    requires Inv(s) && Enabled(s, e) && Step(s, e).Next? && !InitStuck(s)
    ensures InitStuck(Step(s, e).s) <==> Exits(s, e) && HandsOver(s)
  {
    hide Inv, Exited, LoadNext, Handled, Tame, KeyStep;
    if !Exits(s, e) {
      StepTame(s, e);
      TameNotStuck(s, Step(s, e).s);
    } else {
      RunsNow(s);
      var s0 := if e.Fault? then s.(procs := s.procs[s.curr := s.procs[s.curr].(kill := true)]) else s;
      var status := if e.Syscall? then IntArg(e.r.rdi) else KILL_STATUS;
      var r := if e.Syscall? then UserSegments(e.r) else e.r;
      CondemnedInv(s);
      CondemnedSame(s, s0);
      ExitStep(s, e, s0, status, r);
      ExitedInv(s0, status, r);
      ExitHandsOver(s0, status, r);
    }
  }

  lemma TameNotStuck(s: State, s': State)
    requires Tame(s, s') && !InitStuck(s)
    ensures !InitStuck(s')
  {
  }

  lemma CondemnedSame(s: State, s0: State)
    requires s.curr in s.procs && (s0 == s || s0 == s.(procs := s.procs[s.curr := s.procs[s.curr].(kill := true)]))
    ensures (InitStuck(s0) <==> InitStuck(s)) && (HandsOver(s0) <==> HandsOver(s))
  {
    forall c, p ensures ZombieChild(s0.procs, c, p) <==> ZombieChild(s.procs, c, p) {
    }
  }

  /** A step in which the current process dies is an exit followed by loading the next process. */
  lemma ExitStep(s: State, e: Event, s0: State, status: int, r: Regs)
    requires Enabled(s, e) && Exits(s, e) && Step(s, e).Next?
    requires s0 == if e.Fault? then s.(procs := s.procs[s.curr := s.procs[s.curr].(kill := true)]) else s
    requires status == if e.Syscall? then IntArg(e.r.rdi) else KILL_STATUS
    requires r == if e.Syscall? then UserSegments(e.r) else e.r
    requires Inv(s0) && s0.curr == s.curr && !s0.idle
    ensures Exited(s0, status, r).Next? && (InitStuck(Step(s, e).s) <==> InitStuck(Exited(s0, status, r).s))
  {
    hide Inv, Exited, LoadNext;
    assert Exited(s0, status, r).Next?;
    ExitedInv(s0, status, r);
    var s1, s' := Exited(s0, status, r).s, Step(s, e).s;
    if e.Syscall? {
      var r2 := r.(rax := e.r.rax, rip := Sub64(r.rip, 2));
      ExitedFrame(s0, status, r);
      LoadNextQueues(s1.(procs := s1.procs[s.curr := s1.procs[s.curr].(saved := r2)]), r2);
    } else {
      LoadNextQueues(s1, r);
    }
    forall c ensures ZombieChild(s'.procs, c, 1) <==> ZombieChild(s1.procs, c, 1) {
    }
  }
}
