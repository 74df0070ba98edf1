/** What each kernel entry means to the processes, told without the steps of the machine: results, descriptors, positions
    in files, and what stays the same. */
module ProcCalls {
  import opened Machine
  import opened Vfs
  import opened ProcSpec
  import opened ProcInv
  import opened ProcRuns
  import opened ProcContexts

  /** The event is the system call with this number. */
  ghost predicate IsCall(s: State, e: Event, number: nat) {
    e.Syscall? && e.r.rax == number && Enabled(s, e)
  }

  /** A call after which the caller goes on at once ends as its handler does. */
  lemma GoesOn(s: State, e: Event)
    requires Inv(s) && e.Syscall? && Enabled(s, e) && e.r.rax in {1, 2, 3, 8, 12, 32, 33, 39, 59, 62, 96, 110}
    ensures s.curr in s.procs && Step(s, e) == Handled(s, UserSegments(e.r), e)
  {
    hide Inv, Closed, Shared, Seek, FirstNull, IntArg, LoadNext, Exited, Forked, Waited, ReadCall;
    RunsNow(s);
  }

  /** Descriptor i of the current process is f now; every other descriptor and everything else about every process is as
      before. */
  ghost predicate FdSet(s: State, s': State, i: nat, f: nat) {
    && s.curr in s.procs && s'.procs.Keys == s.procs.Keys && (forall p :: p in s.procs && p != s.curr ==> s'.procs[p] == s.procs[p])
    && s' == s.(procs := s'.procs, files := s'.files)
    && var was, now := s.procs[s.curr], s'.procs[s.curr];
       && now == was.(fds := now.fds) && |now.fds| == |was.fds| && i < |now.fds| && now.fds[i] == f
       && forall j :: 0 <= j < |now.fds| && j != i ==> now.fds[j] == was.fds[j]
  }

  /** File f is `now` in s', if at all, and every other file is as before. */
  ghost predicate FileSet(s: State, s': State, f: nat, now: Option<File>) {
    && (forall g :: g != f ==> (g in s'.files <==> g in s.files))
    && (forall g :: g != f && g in s.files ==> s'.files[g] == s.files[g])
    && (now.None? <==> f !in s'.files) && (now.Some? ==> s'.files[f] == now.value)
  }

  /** What descriptor fd of the current process names; 0 if it is none. */
  ghost function NamedBy(s: State, fd: int): nat
    requires s.curr in s.procs
  {
    if 0 <= fd < |s.procs[s.curr].fds| then s.procs[s.curr].fds[fd] else 0
  }

  /** i is the lowest free descriptor. */
  ghost predicate LowestFree(fds: seq<nat>, i: nat) {
    i < |fds| && fds[i] == 0 && forall j :: 0 <= j < i ==> fds[j] != 0
  }

  // ---- Descriptors.

  /** dup returns the lowest free descriptor, which names the same file with one more reference. */
  lemma DupMeaning(s: State, e: Event)
    requires Inv(s) && IsCall(s, e, 32) && Step(s, e).Next?
    ensures var s', rax, f, fds := Step(s, e).s, Step(s, e).regs.rax, NamedBy(s, Signed(e.r.rdi)), s.procs[s.curr].fds;
            if f != 0 && 0 in fds then
              LowestFree(fds, rax) && FdSet(s, s', rax, f) && f in s.files &&
              FileSet(s, s', f, Some(s.files[f].(refs := s.files[f].refs + 1)))
            else rax == TWO64 - 1 && s' == s
  {
    hide Placed, Parents, NoLostWakeup, FilesOk, LoadNext;
    GoesOn(s, e);
  }

  /** dup2 makes the second descriptor name what the first one names, closing what it named. */
  lemma Dup2Meaning(s: State, e: Event)
    requires Inv(s) && IsCall(s, e, 33) && Step(s, e).Next?
    ensures var s', rax, f, to := Step(s, e).s, Step(s, e).regs.rax, NamedBy(s, Signed(e.r.rdi)), Signed(e.r.rsi);
            if f != 0 && 0 <= to < MAX_FDS then
              rax == to && if Signed(e.r.rdi) == to then s' == s else FdSet(s, s', to, f) && f in s'.files
            else rax == TWO64 - 1 && s' == s
  {
    hide Placed, Parents, NoLostWakeup, FilesOk, LoadNext;
    GoesOn(s, e);
  }

  /** open returns the lowest free descriptor, which names a new file at its beginning; without one it fails and the file
      stays open. */
  lemma OpenMeaning(s: State, e: Event)
    requires Inv(s) && IsCall(s, e, 2) && Step(s, e).Next?
    ensures var s', rax, fds := Step(s, e).s, Step(s, e).regs.rax, s.procs[s.curr].fds;
            if e.found.None? then rax == TWO64 - 1 && s' == s
            else
              && e.id !in s.files && FileSet(s, s', e.id, Some(File(e.found.value.size, 0, 1, e.found.value.backing)))
              && if 0 in fds then LowestFree(fds, rax) && FdSet(s, s', rax, e.id) else rax == TWO64 - 1 && s' == s.(files := s'.files)
  {
    hide Placed, Parents, NoLostWakeup, FilesOk, LoadNext;
    GoesOn(s, e);
  }

  /** close clears the descriptor and drops one reference, releasing the file with the last. */
  lemma CloseMeaning(s: State, e: Event)
    requires Inv(s) && IsCall(s, e, 3) && Step(s, e).Next?
    ensures var s', rax, f := Step(s, e).s, Step(s, e).regs.rax, NamedBy(s, Signed(e.r.rdi));
            if f != 0 then
              && rax == 0 && FdSet(s, s', Signed(e.r.rdi), 0) && f in s.files
              && FileSet(s, s', f, if s.files[f].refs == 1 then None else Some(s.files[f].(refs := s.files[f].refs - 1)))
            else rax == TWO64 - 1 && s' == s
  {
    hide Placed, Parents, NoLostWakeup, LoadNext;
    GoesOn(s, e);
  }

  /** Where lseek wants to go: from the start, from the position, or from the end. */
  ghost function SeekTarget(file: File, offset: int, whence: nat): int {
    if whence == 0 then offset else if whence == 1 then Signed(file.position) + offset else Signed(file.size) + offset
  }

  lemma SeekMeaning(s: State, e: Event)
    requires Inv(s) && IsCall(s, e, 8) && Step(s, e).Next?
    ensures var s', rax, f, whence := Step(s, e).s, Step(s, e).regs.rax, NamedBy(s, Signed(e.r.rdi)), e.r.rdx % TWO32;
            if f != 0 && whence <= 2 && f in s.files && 0 <= SeekTarget(s.files[f], Signed(e.r.rsi), whence) <= Signed(s.files[f].size)
            then
              var to := SeekTarget(s.files[f], Signed(e.r.rsi), whence);
              && rax == to && s' == s.(files := s'.files)
              && f in s'.files && s'.files[f].position == to && s'.files[f] == s.files[f].(position := s'.files[f].position)
              && FileSet(s, s', f, Some(s'.files[f]))
            else rax == TWO64 - 1 && s' == s
  {
    hide Placed, Parents, NoLostWakeup, FilesOk, LoadNext, Seek;
    GoesOn(s, e);
    var f := NamedBy(s, Signed(e.r.rdi));
    if f != 0 && e.r.rdx % TWO32 <= 2 {
      var whence := if e.r.rdx % TWO32 == 0 then Set else if e.r.rdx % TWO32 == 1 then Cur else End;
      SeekGoes(s.files[f], Signed(e.r.rsi), whence);
      assert s.files[f := s.files[f]] == s.files;
    }
  }

  lemma SeekGoes(file: File, offset: int, whence: Whence)
    ensures var (now, to) := Seek(file, offset, whence);
            var target := SeekTarget(file, offset, if whence == Set then 0 else if whence == Cur then 1 else 2);
            if 0 <= target <= Signed(file.size) then to == target && now.position == target && now == file.(position := now.position)
            else to == -1 && now == file
  {
  }

  /** write to a device takes everything and moves the position by what it reports; FAT12 files and the keyboard panic. */
  lemma WriteMeaning(s: State, e: Event)
    requires Inv(s) && IsCall(s, e, 1)
    ensures var f := NamedBy(s, Signed(e.r.rdi));
            Step(s, e) == Panic <==> f in s.files && f != 0 && (s.files[f].backing.Regular? || s.files[f].backing == Keyboard)
    ensures Step(s, e).Next? ==>
              var s', rax, f := Step(s, e).s, Step(s, e).regs.rax, NamedBy(s, Signed(e.r.rdi));
              if f != 0 then
                && f in s.files && s' == s.(files := s'.files) && f in s'.files
                && rax == (if s.files[f].backing == Framebuffer then 0 else e.r.rdx)
                && var was, now := s.files[f], s'.files[f];
                   && now == was.(position := now.position, size := now.size) && FileSet(s, s', f, Some(now))
                   && now.position == (if 0 < rax < TWO64 / 2 then (was.position + rax) % TWO64 else was.position)
                   && now.size == if now.position > was.size then now.position else was.size
              else rax == TWO64 - 1 && s' == s
  {
    hide Placed, Parents, NoLostWakeup, FilesOk, LoadNext;
    GoesOn(s, e);
  }

  // ---- Processes.

  lemma GetPidMeaning(s: State, e: Event)
    requires Inv(s) && e.Syscall? && Enabled(s, e) && e.r.rax in {39, 110}
    ensures Step(s, e).Next? && Step(s, e).s == s
    ensures Step(s, e).regs == UserSegments(e.r).(rax := Step(s, e).regs.rax)
    ensures e.r.rax == 39 ==> Step(s, e).regs.rax == s.curr
    ensures e.r.rax == 110 ==> ChildOf(s.procs, s.curr, Step(s, e).regs.rax)
  {
    hide Placed, NoLostWakeup, FilesOk, LoadNext;
    GoesOn(s, e);
    assert ParentOk(s.procs, s.curr);
  }

  /** A process that execve gives a program starts at its entry point, with a fresh stack pointer and interrupts on; a failed
      execve returns -1. The process table does not change. */
  lemma ExecMeaning(s: State, e: Event)
    requires Inv(s) && IsCall(s, e, 59)
    ensures Step(s, e).Next? && Step(s, e).s == s
    ensures var regs := Step(s, e).regs;
            if e.entry.Some? then
              && regs.rip == e.entry.value && regs.rcx == e.entry.value && regs.rsp == 0x7FFF_FFFF_F000 && regs.r11 == 0x202
              && regs.rax == 0
              && regs == UserSegments(e.r).(rip := regs.rip, rcx := regs.rcx, rsp := regs.rsp, r11 := regs.r11, rax := regs.rax)
            else regs == UserSegments(e.r).(rax := TWO64 - 1)
  {
    hide Inv, LoadNext;
    GoesOn(s, e);
  }

  /** fork returns the child's pid to the parent; the child, at the end of the run queue, will see the same registers with
      0 as the result. */
  lemma ForkStep(s: State, e: Event)
    requires Inv(s) && IsCall(s, e, 57) && Step(s, e).Next?
    ensures var s', c := Step(s, e).s, Step(s, e).regs.rax;
            && Step(s, e).regs == UserSegments(e.r).(rax := c) && c !in s.procs && s'.procs.Keys == s.procs.Keys + {c}
            && s'.procs[c] == Proc(s.curr, Runs, false, 0, UserSegments(e.r).(rax := 0), s.procs[s.curr].fds)
            && (forall p :: p in s.procs ==> s'.procs[p] == s.procs[p]) && s'.curr == s.curr
            && Queue(s', Runnable) == Queue(s, Runnable) + [c]
  {
    hide Inv, SharedAll, LoadNext;
    RunsNow(s);
  }

  /** The exit status is the low half of the argument, read as an int. */
  lemma ExitCallStatus(s: State, e: Event)
    requires Inv(s) && IsCall(s, e, 60) && Step(s, e).Next?
    ensures var s' := Step(s, e).s;
            && s.curr in s'.procs && s'.procs[s.curr].state == Zombie
            && s'.procs[s.curr].status % TWO32 == e.r.rdi % TWO32
            && -0x8000_0000 <= s'.procs[s.curr].status < 0x8000_0000
  {
    hide Inv, ClosedAll, WokenAll, LoadNext, Buried;
    RunsNow(s);
    var r := UserSegments(e.r);
    var status := IntArg(r.rdi);
    ExitedInv(s, status, r);
    var s1 := Exited(s, status, r).s;
    BuriedFacts(s.procs, s.curr, status);
    DiedNow(s, status, r);
    var r2 := r.(rax := e.r.rax, rip := Sub64(r.rip, 2));
    LoadNextSame(s1.(procs := s1.procs[s.curr := s1.procs[s.curr].(saved := r2)]), r2);
  }

  lemma DiedNow(s: State, status: int, r: Regs)
    requires Inv(s) && !s.idle && Exited(s, status, r).Next?
    ensures var s' := Exited(s, status, r).s; s.curr in s'.procs && s'.procs[s.curr].state == Zombie && s'.procs[s.curr].status == status
  {
    hide Inv, ClosedAll, WokenAll, LoadNext, Buried;
    ExitedInv(s, status, r);
    RunsNow(s);
    BuriedFacts(s.procs, s.curr, status);
    var files := ClosedAll(s.files, s.procs[s.curr].fds, |s.procs[s.curr].fds|).value;
    var procs := Buried(s.procs, s.curr, status);
    WokenFrame(s.(procs := procs, files := files), WaitOf(procs[s.curr].ppid));
  }

  /** A fault of user code kills the process at once. */
  lemma FaultKills(s: State, r: Regs)
    requires Inv(s) && Enabled(s, Fault(r)) && Step(s, Fault(r)).Next?
    ensures var s' := Step(s, Fault(r)).s;
            s.curr in s'.procs && s'.procs[s.curr].state == Zombie && s'.procs[s.curr].status == 139
  {
    hide Inv, Exited, LoadNext;
    var s1 := s.(procs := s.procs[s.curr := s.procs[s.curr].(kill := true)]);
    CondemnedInv(s);
    DiedNow(s1, KILL_STATUS, r);
    LoadNextSame(Exited(s1, KILL_STATUS, r).s, r);
  }

  // ---- kill.

  /** kill with signal 9 condemns exactly the process named by the low half of its argument; otherwise it fails and
      changes nothing. */
  lemma KillMeaning(s: State, e: Event)
    requires Inv(s) && IsCall(s, e, 62)
    ensures Step(s, e).Next?
    ensures var s', rax, pid := Step(s, e).s, Step(s, e).regs.rax, e.r.rdi % TWO32;
            if e.r.rsi == 9 && pid in s.procs then
              && rax == 0 && s' == s.(procs := s'.procs) && s'.procs.Keys == s.procs.Keys
              && s'.procs[pid].kill && s'.procs[pid] == s.procs[pid].(kill := s'.procs[pid].kill)
              && forall p :: p in s.procs && p != pid ==> s'.procs[p] == s.procs[p]
            else rax == TWO64 - 1 && s' == s
  {
    hide Placed, Parents, NoLostWakeup, FilesOk, LoadNext;
    GoesOn(s, e);
  }

  /** From one step to the next, who is dead stays dead with the same status until it is reaped, who is condemned stays
      condemned, and only the dead leave the table. */
  lemma StepPersists(s: State, e: Event)
    requires Inv(s) && Enabled(s, e) && Step(s, e).Next?
    ensures forall p :: p in s.procs && p in Step(s, e).s.procs ==> Persists(s.procs[p], Step(s, e).s.procs[p])
    ensures forall p :: p in s.procs && p !in Step(s, e).s.procs ==> s.procs[p].state == Zombie
  {
    hide Inv, Handled, LoadNext, Exited, WokenAll;
    match e
    case Tick(r) => SwitchPersists(s, r);
    case Fault(r) =>
      CondemnedInv(s);
      SwitchPersists(s.(procs := s.procs[s.curr := s.procs[s.curr].(kill := true)]), r);
    case Key(scan, _) => KeyContext(s, scan);
    case Wake => LoadNextSame(s, s.procs[s.curr].saved);
    case Syscall(_, _, _, _, _) => CallPersists(s, e);
  }

  lemma SwitchPersists(s: State, r: Regs)
    requires Inv(s) && s.curr in s.procs && (s.idle || Switched(s, r).Next?)
    ensures !s.idle ==> Switched(s, r).s.procs.Keys == s.procs.Keys
    ensures !s.idle ==> forall p :: p in s.procs ==> Persists(s.procs[p], Switched(s, r).s.procs[p])
  {
    hide Inv, Exited, LoadNext;
    if !s.idle {
      if s.procs[s.curr].kill {
        ExitedFrame(s, KILL_STATUS, r);
        LoadNextSame(Exited(s, KILL_STATUS, r).s, r);
      } else if Queue(s, Runnable) != [] {
        LoadNextSame(Enqueued(Saved(s, r), Runnable, s.curr), r);
      }
    }
  }

  lemma CallPersists(s: State, e: Event)
    requires Inv(s) && Enabled(s, e) && e.Syscall? && Step(s, e).Next?
    ensures forall p :: p in s.procs && p in Step(s, e).s.procs ==> Persists(s.procs[p], Step(s, e).s.procs[p])
    ensures forall p :: p in s.procs && p !in Step(s, e).s.procs ==> s.procs[p].state == Zombie
  {
    hide Inv, Handled, LoadNext;
    var r := UserSegments(e.r);
    HandledFrame(s, r, e);
    HandledLeavers(s, r, e);
    var s1, r1 := Handled(s, r, e).s, Handled(s, r, e).regs;
    if s1.procs[s.curr].state != Runs {
      var r2 := r1.(rax := e.r.rax, rip := Sub64(r1.rip, 2));
      LoadNextSame(s1.(procs := s1.procs[s.curr := s1.procs[s.curr].(saved := r2)]), r2);
    }
    forall p | p in s.procs && p in s1.procs ensures Persists(s.procs[p], s1.procs[p]) {
      assert EntryOk(s, s1, r, p);
    }
  }

  lemma HandledLeavers(s: State, r: Regs, e: Event)
    requires Inv(s) && !s.idle && e.Syscall? && s.curr in s.procs && Handled(s, r, e).Next?
    ensures forall p :: p in s.procs && p !in Handled(s, r, e).s.procs ==> s.procs[p].state == Zombie
  {
    hide Inv, Closed, Shared, Seek, FirstNull, Clip, Moved, Exited, SharedAll, HasChild, IntArg;
    if r.rax == 60 {
      ExitedFrame(s, IntArg(r.rdi), r);
    }
  }

  /** The process is in the table all through the run. */
  ghost predicate Remains(s: State, es: seq<Event>, p: nat)
    requires RunOk(s, es)
    decreases |es|
  {
    p in s.procs && (es == [] || Remains(Step(s, es[0]).s, es[1..], p))
  }

  /** Over any run in which it stays in the table, a condemned process stays condemned, and a dead one keeps its status. */
  lemma {:induction false} RunPersists(s: State, es: seq<Event>, p: nat)
    requires Inv(s) && RunOk(s, es) && Remains(s, es, p)
    ensures p in After(s, es).procs && Persists(s.procs[p], After(s, es).procs[p]) && Inv(After(s, es))
    decreases |es|
  {
    hide Inv, Step, Enabled;
    if es != [] {
      StepInv(s, es[0]);
      StepPersists(s, es[0]);
      RunPersists(Step(s, es[0]).s, es[1..], p);
    }
  }

  /** kill kills: after any run in which the condemned process stays in the table, the first tick that finds it running
      leaves a zombie with status 139. */
  lemma KillKills(s: State, e: Event, es: seq<Event>, r: Regs)
    requires Inv(s) && IsCall(s, e, 62) && e.r.rsi == 9 && e.r.rdi % TWO32 in s.procs
    requires Step(s, e).Next? && RunOk(Step(s, e).s, es) && Remains(Step(s, e).s, es, e.r.rdi % TWO32)
    requires var s' := After(Step(s, e).s, es); s'.curr == e.r.rdi % TWO32 && !s'.idle && Enabled(s', Tick(r)) && Step(s', Tick(r)).Next?
    ensures var s'', pid := Step(After(Step(s, e).s, es), Tick(r)).s, e.r.rdi % TWO32;
            pid in s''.procs && s''.procs[pid].state == Zombie && s''.procs[pid].status == 139
  {
    hide Inv, Step, Enabled, After, RunOk, Remains;
    KillMeaning(s, e);
    StepInv(s, e);
    RunPersists(Step(s, e).s, es, e.r.rdi % TWO32);
    KillTakesEffect(After(Step(s, e).s, es), r);
  }

  /** The low half of what a process passes to exit is what its zombie holds for wait, over any run until it is reaped. */
  lemma ExitStatusKept(s: State, e: Event, es: seq<Event>)
    requires Inv(s) && IsCall(s, e, 60) && Step(s, e).Next? && RunOk(Step(s, e).s, es) && Remains(Step(s, e).s, es, s.curr)
    ensures var s' := After(Step(s, e).s, es);
            Inv(s') && s.curr in s'.procs && s'.procs[s.curr].state == Zombie && s'.procs[s.curr].status % TWO32 == e.r.rdi % TWO32
  {
    hide Inv, Step, Enabled, After, RunOk, Remains;
    ExitCallStatus(s, e);
    StepInv(s, e);
    RunPersists(Step(s, e).s, es, s.curr);
  }

  // ---- The scheduler.

  /** A tick gives the processor to the head of the run queue and puts the running process at its end; with nobody else
      to run it changes nothing. */
  lemma TickRotates(s: State, r: Regs)
    requires Inv(s) && !s.idle && s.curr in s.procs && !s.procs[s.curr].kill && !Ring0(r)
    ensures Step(s, Tick(r)).Next?
    ensures var s', ready := Step(s, Tick(r)).s, Queue(s, Runnable);
            if ready == [] then s' == s && Step(s, Tick(r)).regs == r
            else
              && s'.curr == ready[0] && !s'.idle && Queue(s', Runnable) == ready[1..] + [s.curr]
              && s'.procs == s.procs[s.curr := s.procs[s.curr].(saved := r)]
  {
    hide Parents, NoLostWakeup, FilesOk, PlaceOk;
    if Queue(s, Runnable) != [] {
      assert Queue(s, Runnable)[0] in Queue(s, Runnable);
    }
  }

  /** An idle processor takes the head of the run queue as soon as there is one. */
  lemma WakeDispatches(s: State)
    requires Inv(s) && s.idle
    ensures Step(s, Wake).Next?
    ensures var s', ready := Step(s, Wake).s, Queue(s, Runnable);
            if ready == [] then s' == s else s'.curr == ready[0] && !s'.idle && Queue(s', Runnable) == ready[1..]
  {
    hide Parents, NoLostWakeup, FilesOk, PlaceOk;
    if Queue(s, Runnable) != [] {
      assert Queue(s, Runnable)[0] in Queue(s, Runnable);
    }
  }

  /** n ticks of user code. */
  ghost predicate Ticks(es: seq<Event>) {
    forall i :: 0 <= i < |es| ==> es[i].Tick? && !Ring0(es[i].r)
  }

  /** Nobody in the table is condemned. */
  ghost predicate NobodyCondemned(s: State) {
    forall p :: p in s.procs ==> !s.procs[p].kill
  }

  /** Round robin: a runnable process with k ahead of it runs after exactly k + 1 ticks, if nobody else makes a call. */
  lemma {:induction false} RoundRobin(s: State, es: seq<Event>, k: nat)
    requires Inv(s) && !s.idle && NobodyCondemned(s) && Ticks(es) && k < |Queue(s, Runnable)| && |es| == k + 1
    ensures RunOk(s, es) && After(s, es).curr == Queue(s, Runnable)[k] && !After(s, es).idle
    decreases k
  {
    hide Inv, Step;
    RunsNow(s);
    var e := es[0];
    TickRotates(s, e.r);
    StepInv(s, e);
    var s' := Step(s, e).s;
    if k > 0 {
      RoundRobin(s', es[1..], k - 1);
    } else {
      assert es[1..] == [];
      assert RunOk(s', []) && After(s', []) == s';
    }
  }

  // ---- Rings.

  /** No process has a context of the kernel's ring. */
  ghost predicate UserContexts(s: State) {
    forall p :: p in s.procs ==> s.procs[p].saved.cs % 4 != 0
  }

  lemma LoadNextUser(s: State, r: Regs)
    requires UserContexts(s) && LoadNext(s, r).Next?
    ensures UserContexts(LoadNext(s, r).s) && (!LoadNext(s, r).s.idle ==> LoadNext(s, r).regs.cs % 4 != 0)
  {
  }

  lemma SwitchedUser(s: State, r: Regs)
    requires Inv(s) && !s.idle && s.curr in s.procs && UserContexts(s) && Switched(s, r).Next?
    ensures UserContexts(Switched(s, r).s) && (!Switched(s, r).s.idle ==> Switched(s, r).regs.cs % 4 != 0)
  {
    hide Inv, Exited, LoadNext;
    if s.procs[s.curr].kill {
      ExitedFrame(s, KILL_STATUS, r);
      LoadNextUser(Exited(s, KILL_STATUS, r).s, r);
    } else if Queue(s, Runnable) != [] {
      LoadNextUser(Enqueued(Saved(s, r), Runnable, s.curr), r);
    }
  }

  lemma SyscallUser(s: State, e: Event)
    requires Inv(s) && Enabled(s, e) && e.Syscall? && UserContexts(s) && Step(s, e).Next?
    ensures UserContexts(Step(s, e).s) && (!Step(s, e).s.idle ==> Step(s, e).regs.cs % 4 != 0)
  {
    hide Inv, Handled, LoadNext;
    var r := UserSegments(e.r);
    HandledFrame(s, r, e);
    var s1, r1 := Handled(s, r, e).s, Handled(s, r, e).regs;
    assert r1.cs == r.cs;
    forall p | p in s1.procs ensures s1.procs[p].saved.cs % 4 != 0 {
      assert EntryOk(s, s1, r, p);
    }
    if s1.procs[s.curr].state != Runs {
      var r2 := r1.(rax := e.r.rax, rip := Sub64(r1.rip, 2));
      LoadNextUser(s1.(procs := s1.procs[s.curr := s1.procs[s.curr].(saved := r2)]), r2);
    }
  }

  /** The kernel returns to user code only: a step that leaves the processor running does so with a context that is not of
      the kernel's ring. A key returns to what it interrupted. */
  lemma StepUser(s: State, e: Event)
    requires Inv(s) && Enabled(s, e) && UserContexts(s) && Step(s, e).Next?
    ensures UserContexts(Step(s, e).s)
    ensures !Step(s, e).s.idle && !e.Key? ==> Step(s, e).regs.cs % 4 != 0
  {
    hide Inv, Switched, SyscallStep, LoadNext, KeyStep;
    match e
    case Tick(r) =>
      if !s.idle {
        SwitchedUser(s, r);
      }
    case Fault(r) =>
      CondemnedInv(s);
      SwitchedUser(s.(procs := s.procs[s.curr := s.procs[s.curr].(kill := true)]), r);
    case Key(scan, _) => KeyContext(s, scan);
    case Wake => LoadNextUser(s, s.procs[s.curr].saved);
    case Syscall(_, _, _, _, _) => SyscallUser(s, e);
  }

  /** So over every run. */
  lemma {:induction false} RunUser(s: State, es: seq<Event>)
    requires Inv(s) && UserContexts(s) && RunOk(s, es)
    ensures Inv(After(s, es)) && UserContexts(After(s, es))
    decreases |es|
  {
    hide Inv, Step, Enabled, UserContexts;
    if es != [] {
      StepInv(s, es[0]);
      StepUser(s, es[0]);
      RunUser(Step(s, es[0]).s, es[1..]);
    }
  }
}
