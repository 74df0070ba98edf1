/** Reference counts against descriptor slots, over every step and run. */
module ProcFiles {
  import opened Machine
  import opened Vfs
  import opened ProcSpec
  import opened ProcInv
  import opened ProcRuns

  /** How many descriptors of process p name f. */
  ghost function SlotsOf(procs: Procs, p: nat, f: nat): nat {
    if p in procs then multiset(procs[p].fds)[f] else 0
  }

  ghost function SlotsBelow(procs: Procs, f: nat, n: nat): nat {
    if n == 0 then 0 else SlotsBelow(procs, f, n - 1) + SlotsOf(procs, n - 1, f)
  }

  /** How many descriptors of all processes name f. */
  ghost function Slots(s: State, f: nat): nat {
    SlotsBelow(s.procs, f, MAX_PIDS)
  }

  ghost function Refs(files: Files, f: nat): nat {
    if f in files then files[f].refs else 0
  }

  ghost function Balance(s: State, f: nat): int {
    Refs(s.files, f) - Slots(s, f)
  }

  lemma {:induction false} SlotsSame(procs: Procs, procs': Procs, f: nat, n: nat)
    requires forall p :: SlotsOf(procs', p, f) == SlotsOf(procs, p, f)
    ensures SlotsBelow(procs', f, n) == SlotsBelow(procs, f, n)
  {
    if n > 0 {
      SlotsSame(procs, procs', f, n - 1);
    }
  }

  /** One process's descriptors changed. */
  lemma {:induction false} SlotsChanged(procs: Procs, procs': Procs, p: nat, f: nat, n: nat)
    requires forall q :: q != p ==> SlotsOf(procs', q, f) == SlotsOf(procs, q, f)
    ensures SlotsBelow(procs', f, n) ==
            SlotsBelow(procs, f, n) + if p < n then SlotsOf(procs', p, f) - SlotsOf(procs, p, f) else 0
  {
    if n > 0 {
      SlotsChanged(procs, procs', p, f, n - 1);
    }
  }

  /** Descriptors and counts are as before. */
  ghost predicate SameSlots(s: State, s': State) {
    && (forall p, f :: SlotsOf(s'.procs, p, f) == SlotsOf(s.procs, p, f))
    && (forall f :: Refs(s'.files, f) == Refs(s.files, f))
  }

  lemma SameBalance(s: State, s': State, f: nat)
    requires SameSlots(s, s')
    ensures Balance(s', f) == Balance(s, f)
  {
    SlotsSame(s.procs, s'.procs, f, MAX_PIDS);
  }

  /** A change of one process's descriptors that matches the change of the count. */
  lemma Balanced(s: State, s': State, p: nat, f: nat)
    requires forall q :: q != p ==> SlotsOf(s'.procs, q, f) == SlotsOf(s.procs, q, f)
    requires p < MAX_PIDS && Refs(s'.files, f) - Refs(s.files, f) == SlotsOf(s'.procs, p, f) - SlotsOf(s.procs, p, f)
    ensures Balance(s', f) == Balance(s, f)
  {
    SlotsChanged(s.procs, s'.procs, p, f, MAX_PIDS);
  }

  lemma {:induction false} ClosedAllCounts(files: Files, fds: seq<nat>, n: nat, f: nat)
    requires n <= |fds| && Referenced(files) && f != 0 && ClosedAll(files, fds, n).Some?
    ensures Referenced(ClosedAll(files, fds, n).value)
    ensures Refs(ClosedAll(files, fds, n).value, f) == Refs(files, f) - multiset(fds[..n])[f]
  {
    if n > 0 {
      ClosedAllCounts(files, fds, n - 1, f);
      assert fds[..n] == fds[..n - 1] + [fds[n - 1]];
    }
  }

  lemma {:induction false} SharedAllCounts(files: Files, fds: seq<nat>, n: nat, f: nat)
    requires n <= |fds| && f != 0 && SharedAll(files, fds, n).Some?
    ensures Refs(SharedAll(files, fds, n).value, f) == Refs(files, f) + multiset(fds[..n])[f]
  {
    if n > 0 {
      SharedAllCounts(files, fds, n - 1, f);
      assert fds[..n] == fds[..n - 1] + [fds[n - 1]];
    }
  }

  lemma ExitedBalance(s: State, status: int, r: Regs, f: nat)
    requires Inv(s) && !s.idle && Exited(s, status, r).Next? && f != 0
    ensures Balance(Exited(s, status, r).s, f) == Balance(s, f)
  {
    hide Placed, Parents, NoLostWakeup, Buried, WokenAll;
    var fds, s', procs := s.procs[s.curr].fds, Exited(s, status, r).s, Buried(s.procs, s.curr, status);
    ClosedAllCounts(s.files, fds, |fds|, f);
    assert fds[..|fds|] == fds;
    BuriedFacts(s.procs, s.curr, status);
    WokenFrame(s.(procs := procs, files := ClosedAll(s.files, fds, |fds|).value), WaitOf(procs[s.curr].ppid));
    NoFilesNamesNothing(f);
    Balanced(s, s', s.curr, f);
  }

  lemma NoFilesNamesNothing(f: nat)
    requires f != 0
    ensures multiset(NoFiles())[f] == 0
  {
    assert f !in NoFiles();
  }

  lemma ForkedBalance(s: State, r: Regs, f: nat)
    requires Inv(s) && !s.idle && Forked(s, r).Next? && f != 0
    ensures Balance(Forked(s, r).s, f) == Balance(s, f)
  {
    hide Placed, Parents, NoLostWakeup, FilesOk;
    var fds, s', c := s.procs[s.curr].fds, Forked(s, r).s, FreePid(s.procs, 1).value;
    SharedAllCounts(s.files, fds, |fds|, f);
    assert fds[..|fds|] == fds;
    Balanced(s, s', c, f);
  }

  lemma WaitedBalance(s: State, r: Regs, f: nat)
    requires Inv(s) && !s.idle && Waited(s, r).Next? && f != 0
    ensures Balance(Waited(s, r).s, f) == Balance(s, f)
  {
    hide Placed, Parents, NoLostWakeup;
    var s' := Waited(s, r).s;
    match FirstZombie(s.procs, s.curr, 0)
    case Some(z) =>
      NoFilesNamesNothing(f);
      Balanced(s, s', z, f);
    case None => SameBalance(s, s', f);
  }

  lemma ReadBalance(s: State, r: Regs, f: nat)
    requires s.curr in s.procs && ReadCall(s, r).Next?
    ensures Balance(ReadCall(s, r).s, f) == Balance(s, f)
  {
    hide Clip;
    SameBalance(s, ReadCall(s, r).s, f);
  }

  lemma WriteBalance(s: State, r: Regs, f: nat)
    requires s.curr in s.procs && WriteCall(s, r).Next?
    ensures Balance(WriteCall(s, r).s, f) == Balance(s, f)
  {
    SameBalance(s, WriteCall(s, r).s, f);
  }

  lemma SeekBalance(s: State, r: Regs, f: nat)
    requires s.curr in s.procs && SeekCall(s, r).Next?
    ensures Balance(SeekCall(s, r).s, f) == Balance(s, f)
  {
    SameBalance(s, SeekCall(s, r).s, f);
  }

  lemma CloseBalance(s: State, r: Regs, f: nat)
    requires Inv(s) && !s.idle && CloseCall(s, r).Next? && f != 0
    ensures Balance(CloseCall(s, r).s, f) == Balance(s, f)
  {
    hide Placed, Parents, NoLostWakeup;
    Balanced(s, CloseCall(s, r).s, s.curr, f);
  }

  lemma DupBalance(s: State, r: Regs, f: nat)
    requires Inv(s) && !s.idle && DupCall(s, r).Next? && f != 0
    ensures Balance(DupCall(s, r).s, f) == Balance(s, f)
  {
    hide Placed, Parents, NoLostWakeup;
    Balanced(s, DupCall(s, r).s, s.curr, f);
  }

  lemma ClosedRefs(files: Files, f: nat, g: nat)
    requires Referenced(files) && Closed(files, f).Some?
    ensures Refs(Closed(files, f).value, g) == Refs(files, g) - if g == f then 1 else 0
  {
  }

  lemma SharedRefs(files: Files, f: nat, g: nat)
    requires Shared(files, f).Some?
    ensures Refs(Shared(files, f).value, g) == Refs(files, g) + if g == f then 1 else 0
  {
  }

  /** One descriptor now names f' instead of what it named. */
  lemma FdSlots(s: State, i: nat, f': nat, f: nat)
    requires s.curr in s.procs && i < |s.procs[s.curr].fds|
    ensures var s' := WithFd(s, i, f');
            && s'.files == s.files && SlotsOf(s'.procs, s.curr, f) == SlotsOf(s.procs, s.curr, f) -
                 (if s.procs[s.curr].fds[i] == f then 1 else 0) + (if f' == f then 1 else 0)
            && forall q :: q != s.curr ==> SlotsOf(s'.procs, q, f) == SlotsOf(s.procs, q, f)
  {
  }

  /** Also when both descriptors name the same file. */
  lemma Dup2Balance(s: State, r: Regs, f: nat)
    requires Inv(s) && !s.idle && Dup2Call(s, r).Next? && f != 0
    ensures Balance(Dup2Call(s, r).s, f) == Balance(s, f)
  {
    hide Placed, Parents, NoLostWakeup, Closed, Shared, WithFd, SlotsOf, Balance;
    var (fd, target, fds) := (Signed(r.rdi), Signed(r.rsi), s.procs[s.curr].fds);
    if FdValid(fd, fds) && 0 <= target < |fds| && fd != target {
      var closed := (if fds[target] != 0 then Closed(s.files, fds[target]) else Some(s.files)).value;
      var files := Shared(closed, fds[fd]).value;
      if fds[target] != 0 {
        ClosedRefs(s.files, fds[target], f);
      }
      SharedRefs(closed, fds[fd], f);
      FdSlots(s.(files := files), target, fds[fd], f);
      Balanced(s, WithFd(s.(files := files), target, fds[fd]), s.curr, f);
    }
  }

  /** open finds no free descriptor, so the file it opened is named by none. */
  ghost predicate Leaks(s: State, e: Event, f: nat)
    requires s.curr in s.procs
  {
    e.Syscall? && e.r.rax == 2 && e.found.Some? && e.id == f && FirstNull(s.procs[s.curr].fds, 0) == None
  }

  lemma OpenBalance(s: State, r: Regs, e: Event, f: nat)
    requires Inv(s) && !s.idle && e.Syscall? && e.r.rax == 2 && OpenCall(s, r, e.found, e.id).Next? && f != 0
    ensures Balance(OpenCall(s, r, e.found, e.id).s, f) == Balance(s, f) + if Leaks(s, e, f) then 1 else 0
  {
    hide Placed, Parents, NoLostWakeup;
    var s' := OpenCall(s, r, e.found, e.id).s;
    if e.found.Some? && FirstNull(s.procs[s.curr].fds, 0).None? {
      SlotsSame(s.procs, s'.procs, f, MAX_PIDS);
    } else {
      Balanced(s, s', s.curr, f);
    }
  }

  lemma HandledBalance(s: State, r: Regs, e: Event, f: nat)
    requires Inv(s) && !s.idle && e.Syscall? && e.r.rax == r.rax && Handled(s, r, e).Next? && f != 0
    ensures Balance(Handled(s, r, e).s, f) == Balance(s, f) + if Leaks(s, e, f) then 1 else 0
  {
    hide Inv, Exited, Forked, Waited, Killed, ReadCall, WriteCall, IntArg, OpenCall, CloseCall, DupCall, Dup2Call, SeekCall, Balance;
    RunsNow(s);
    if r.rax == 0 {
      ReadBalance(s, r, f);
    } else if r.rax == 1 {
      WriteBalance(s, r, f);
    } else if r.rax == 2 {
      OpenBalance(s, r, e, f);
    } else if r.rax == 3 {
      CloseBalance(s, r, f);
    } else if r.rax == 8 {
      SeekBalance(s, r, f);
    } else if r.rax == 32 {
      DupBalance(s, r, f);
    } else if r.rax == 33 {
      Dup2Balance(s, r, f);
    } else if r.rax == 57 {
      ForkedBalance(s, r, f);
    } else if r.rax == 60 {
      ExitedBalance(s, IntArg(r.rdi), r, f);
    } else if r.rax == 61 {
      WaitedBalance(s, r, f);
    } else if r.rax == 62 {
      KilledBalance(s, r, f);
    }
  }

  lemma KilledBalance(s: State, r: Regs, f: nat)
    ensures Killed(s, r).Next? && Balance(Killed(s, r).s, f) == Balance(s, f)
  {
    hide IntArg;
    SameBalance(s, Killed(s, r).s, f);
  }

  lemma LoadNextBalance(s: State, r: Regs, f: nat)
    requires LoadNext(s, r).Next?
    ensures Balance(LoadNext(s, r).s, f) == Balance(s, f)
  {
    SameBalance(s, LoadNext(s, r).s, f);
  }

  lemma SyscallBalance(s: State, e: Event, f: nat)
    requires Inv(s) && !s.idle && e.Syscall? && s.curr in s.procs && SyscallStep(s, e).Next? && f != 0
    ensures Balance(SyscallStep(s, e).s, f) == Balance(s, f) + if Leaks(s, e, f) then 1 else 0
  {
    hide Inv, Handled, LoadNext, Balance;
    var r := UserSegments(e.r);
    HandledBalance(s, r, e, f);
    var s1, r1 := Handled(s, r, e).s, Handled(s, r, e).regs;
    if s1.procs[s.curr].state != Runs {
      var r2 := r1.(rax := e.r.rax, rip := Sub64(r1.rip, 2));
      var s2 := s1.(procs := s1.procs[s.curr := s1.procs[s.curr].(saved := r2)]);
      SameBalance(s1, s2, f);
      LoadNextBalance(s2, r2, f);
    }
  }

  lemma SwitchedBalance(s: State, r: Regs, f: nat)
    requires Inv(s) && !s.idle && s.curr in s.procs && Switched(s, r).Next? && f != 0
    ensures Balance(Switched(s, r).s, f) == Balance(s, f)
  {
    hide Inv, Exited, LoadNext, Balance;
    if s.procs[s.curr].kill {
      ExitedBalance(s, KILL_STATUS, r, f);
      LoadNextBalance(Exited(s, KILL_STATUS, r).s, r, f);
    } else if Queue(s, Runnable) != [] {
      SameBalance(s, Enqueued(Saved(s, r), Runnable, s.curr), f);
      LoadNextBalance(Enqueued(Saved(s, r), Runnable, s.curr), r, f);
    }
  }

  lemma KeyBalance(s: State, scan: nat, f: nat)
    ensures Balance(KeyStep(s, scan), f) == Balance(s, f)
  {
    hide WokenAll;
    if scan < |SCAN_CODES| {
      var keys := if |s.keys| < RING_CAPACITY then s.keys + [SCAN_CODES[scan]] else s.keys;
      WokenFrame(s.(keys := keys), Keys);
      SameBalance(s, KeyStep(s, scan), f);
    }
  }

  /** Each step changes the count of a file by exactly the change in the number of descriptors naming it; the one
      exception is open with a full table. */
  lemma StepBalance(s: State, e: Event, f: nat)
    requires Inv(s) && Enabled(s, e) && Step(s, e).Next? && f != 0
    ensures Balance(Step(s, e).s, f) == Balance(s, f) + if Leaks(s, e, f) then 1 else 0
  {
    hide Inv, Switched, SyscallStep, KeyStep, LoadNext, Balance;
    match e
    case Tick(r) =>
      if !s.idle {
        SwitchedBalance(s, r, f);
      }
    case Fault(r) =>
      var s1 := s.(procs := s.procs[s.curr := s.procs[s.curr].(kill := true)]);
      CondemnedInv(s);
      SameBalance(s, s1, f);
      SwitchedBalance(s1, r, f);
    case Key(scan, _) => KeyBalance(s, scan, f);
    case Wake => LoadNextBalance(s, s.procs[s.curr].saved, f);
    case Syscall(_, _, _, _, _) => SyscallBalance(s, e, f);
  }

  ghost predicate NoLeak(s: State, es: seq<Event>, f: nat)
    requires RunOk(s, es)
    decreases |es|
  {
    es == [] || (!Leaks(s, es[0], f) && NoLeak(Step(s, es[0]).s, es[1..], f))
  }

  /** A file whose count is its number of descriptors stays so over every run, and is in memory exactly while a
      descriptor names it. */
  lemma {:induction false} RunBalance(s: State, es: seq<Event>, f: nat)
    requires Inv(s) && RunOk(s, es) && f != 0 && NoLeak(s, es, f)
    ensures Balance(After(s, es), f) == Balance(s, f)
    ensures Balance(s, f) == 0 ==> (f in After(s, es).files <==> Slots(After(s, es), f) > 0)
    decreases |es|
  {
    hide Inv, Step, Enabled, Slots;
    if es == [] {
      FileHasRefs(s, f);
    } else {
      StepInv(s, es[0]);
      StepBalance(s, es[0], f);
      RunBalance(Step(s, es[0]).s, es[1..], f);
    }
  }

  lemma FileHasRefs(s: State, f: nat)
    requires Inv(s)
    ensures f in s.files ==> s.files[f].refs > 0
  {
  }

  /** From boot on: /dev/tty, in three of init's descriptors with one reference, is two short; the file init was
      loaded from is one over; every other file is exact. */
  lemma BootBalance(tty: nat, image: nat, file: File, r: Regs, f: nat)
    requires tty != 0 && image != 0 && tty != image && f != 0
    ensures Balance(Boot(tty, image, file, r), f) == if f == tty then -2 else if f == image then 1 else 0
  {
    var s := Boot(tty, image, file, r);
    BootSlots(s, f, MAX_PIDS);
    var rest := seq(MAX_FDS - 3, _ => 0);
    assert f !in rest;
    assert multiset([tty, tty, tty] + rest)[f] == multiset([tty, tty, tty])[f] + multiset(rest)[f];
  }

  lemma {:induction false} BootSlots(s: State, f: nat, n: nat)
    requires s.procs.Keys == {1}
    ensures SlotsBelow(s.procs, f, n) == if n > 1 then SlotsOf(s.procs, 1, f) else 0
  {
    if n > 0 {
      BootSlots(s, f, n - 1);
    }
  }

  /** Any run from boot: the invariant holds, and a file other than the two init starts with is in memory exactly while
      a descriptor names it, with as many references as descriptors. The terminal is in memory exactly while more than
      two name it, and two always do; the file init was loaded from is always in memory. */
  lemma FromBoot(tty: nat, image: nat, file: File, r: Regs, es: seq<Event>, f: nat)
    requires tty != 0 && image != 0 && tty != image && f != 0 && RunOk(Boot(tty, image, file, r), es)
    requires NoLeak(Boot(tty, image, file, r), es, f)
    ensures var s := After(Boot(tty, image, file, r), es);
            && Inv(s) && Balance(s, f) == (if f == tty then -2 else if f == image then 1 else 0)
            && (f != tty && f != image ==> (f in s.files <==> Slots(s, f) > 0) && Refs(s.files, f) == Slots(s, f))
            && (f == tty ==> (f in s.files <==> Slots(s, f) > 2) && Slots(s, f) >= 2) && (f == image ==> f in s.files)
  {
    hide Inv, RunOk, After, NoLeak, Slots;
    var s := Boot(tty, image, file, r);
    BootInv(tty, image, file, r);
    BootBalance(tty, image, file, r, f);
    RunInv(s, es);
    RunBalance(s, es, f);
    FileHasRefs(After(s, es), f);
  }

  // ---- No descriptor dangles, except for the terminal init starts with.

  /** Every file but the terminal has at least as many references as descriptors. */
  ghost predicate Solvent(s: State, tty: nat) {
    forall f :: f != 0 && f != tty ==> Balance(s, f) >= 0
  }

  /** The current process has more descriptors for the terminal than the terminal has references. */
  ghost predicate TtyOverdrawn(s: State, tty: nat) {
    s.curr in s.procs && multiset(s.procs[s.curr].fds)[tty] > Refs(s.files, tty)
  }

  lemma {:induction false} RunSolvent(s: State, es: seq<Event>, tty: nat)
    requires Inv(s) && RunOk(s, es) && Solvent(s, tty)
    ensures Inv(After(s, es)) && Solvent(After(s, es), tty)
    decreases |es|
  {
    hide Inv, Step, Enabled, Balance;
    if es != [] {
      StepInv(s, es[0]);
      forall f | f != 0 && f != tty ensures Balance(Step(s, es[0]).s, f) >= 0 {
        StepBalance(s, es[0], f);
      }
      RunSolvent(Step(s, es[0]).s, es[1..], tty);
    }
  }

  lemma {:induction false} SlotsAtLeast(procs: Procs, p: nat, f: nat, n: nat)
    requires p < n
    ensures SlotsBelow(procs, f, n) >= SlotsOf(procs, p, f)
  {
    if p < n - 1 {
      SlotsAtLeast(procs, p, f, n - 1);
    }
  }

  /** A descriptor table with more descriptors for f than f has references can only be about the terminal. */
  lemma Overdrawn(s: State, tty: nat, f: nat)
    requires Inv(s) && Solvent(s, tty) && f != 0 && multiset(s.procs[s.curr].fds)[f] > Refs(s.files, f)
    ensures f == tty && TtyOverdrawn(s, tty)
  {
    hide Placed, Parents, NoLostWakeup, FilesOk;
    SlotsAtLeast(s.procs, s.curr, f, MAX_PIDS);
    assert Balance(s, f) < 0;
  }

  /** So can a descriptor for a file that is not in memory. */
  lemma DanglingIsTty(s: State, tty: nat, i: nat)
    requires Inv(s) && Solvent(s, tty) && s.curr in s.procs && i < |s.procs[s.curr].fds|
    requires s.procs[s.curr].fds[i] != 0 && s.procs[s.curr].fds[i] !in s.files
    ensures TtyOverdrawn(s, tty)
  {
    hide Inv, Solvent;
    var f := s.procs[s.curr].fds[i];
    assert f in s.procs[s.curr].fds;
    Overdrawn(s, tty, f);
  }

  lemma {:induction false} SharedKeys(files: Files, fds: seq<nat>, n: nat)
    requires n <= |fds|
    ensures SharedAll(files, fds, n).Some? <==> forall i :: 0 <= i < n && fds[i] != 0 ==> fds[i] in files
    ensures SharedAll(files, fds, n).Some? ==> SharedAll(files, fds, n).value.Keys == files.Keys
  {
    if n > 0 {
      SharedKeys(files, fds, n - 1);
    }
  }

  lemma {:induction false} CloseFails(files: Files, fds: seq<nat>, n: nat) returns (f: nat)
    requires n <= |fds| && ClosedAll(files, fds, n).None? && Referenced(files)
    ensures f != 0 && multiset(fds[..n])[f] > Refs(files, f)
  {
    assert fds[..n] == fds[..n - 1] + [fds[n - 1]];
    if ClosedAll(files, fds, n - 1).None? {
      f := CloseFails(files, fds, n - 1);
    } else {
      f := fds[n - 1];
      ClosedAllCounts(files, fds, n - 1, f);
    }
  }

  // ---- Exactly when a kernel entry uses a released file.

  /** Descriptor i of the current process names a file that is not in memory. */
  ghost predicate Dangles(s: State, i: int) {
    s.curr in s.procs && FdValid(i, s.procs[s.curr].fds) && s.procs[s.curr].fds[i] !in s.files
  }

  /** The current process has more descriptors for some file than the file has references. */
  ghost predicate Overspent(s: State) {
    s.curr in s.procs && exists f :: f != 0 && multiset(s.procs[s.curr].fds)[f] > Refs(s.files, f)
  }

  /** dup2 is given a stale descriptor, or closes the only reference it is about to share. */
  ghost predicate Dup2Dangles(s: State, r: Regs)
    requires s.curr in s.procs
  {
    var (fd, target, fds) := (Signed(r.rdi), Signed(r.rsi), s.procs[s.curr].fds);
    && FdValid(fd, fds) && 0 <= target < |fds| && fd != target
    && (Dangles(s, fd) || Dangles(s, target) || (fds[fd] == fds[target] && Refs(s.files, fds[fd]) == 1))
  }

  ghost predicate CallDangles(s: State, r: Regs)
    requires s.curr in s.procs
  {
    if r.rax in {0, 1, 3, 8} then Dangles(s, Signed(r.rdi))
    else if r.rax == 32 then Dangles(s, Signed(r.rdi)) && 0 in s.procs[s.curr].fds
    else if r.rax == 33 then Dup2Dangles(s, r)
    else if r.rax == 57 then (exists c :: 1 <= c < MAX_PIDS && c !in s.procs) && exists i :: Dangles(s, i)
    else r.rax == 60 && Overspent(s)
  }

  ghost predicate EntryDangles(s: State, e: Event)
    requires s.curr in s.procs
  {
    match e
    case Tick(r) => !s.idle && !Ring0(r) && s.procs[s.curr].kill && Overspent(s)
    case Fault(r) => !Ring0(r) && Overspent(s)
    case Key(_, _) => false
    case Wake => false
    case Syscall(r, _, _, _, _) => CallDangles(s, r)
  }

  lemma ExitUndefined(s: State, status: int, r: Regs)
    requires Inv(s) && s.curr in s.procs
    ensures Exited(s, status, r) == Undefined <==> Overspent(s)
  {
    hide Placed, Parents, NoLostWakeup, Buried, WokenAll;
    var fds := s.procs[s.curr].fds;
    assert fds[..|fds|] == fds;
    if ClosedAll(s.files, fds, |fds|).None? {
      var f := CloseFails(s.files, fds, |fds|);
    } else if Overspent(s) {
      var f :| f != 0 && multiset(fds)[f] > Refs(s.files, f);
      ClosedAllCounts(s.files, fds, |fds|, f);
      assert false;
    }
  }

  lemma ForkUndefined(s: State, r: Regs)
    requires s.curr in s.procs
    ensures Forked(s, r) == Undefined <==> (exists c :: 1 <= c < MAX_PIDS && c !in s.procs) && exists i :: Dangles(s, i)
  {
    var fds := s.procs[s.curr].fds;
    SharedKeys(s.files, fds, |fds|);
    if SharedAll(s.files, fds, |fds|).None? {
      var i :| 0 <= i < |fds| && fds[i] != 0 && fds[i] !in s.files;
      assert Dangles(s, i);
    }
  }

  lemma Dup2Undefined(s: State, r: Regs)
    requires Inv(s) && s.curr in s.procs
    ensures Dup2Call(s, r) == Undefined <==> Dup2Dangles(s, r)
  {
    hide Placed, Parents, NoLostWakeup;
  }

  lemma FileCallsUndefined(s: State, r: Regs)
    requires s.curr in s.procs
    ensures ReadCall(s, r) == Undefined <==> Dangles(s, Signed(r.rdi))
    ensures WriteCall(s, r) == Undefined <==> Dangles(s, Signed(r.rdi))
    ensures SeekCall(s, r) == Undefined <==> Dangles(s, Signed(r.rdi))
    ensures CloseCall(s, r) == Undefined <==> Dangles(s, Signed(r.rdi))
    ensures DupCall(s, r) == Undefined <==> Dangles(s, Signed(r.rdi)) && 0 in s.procs[s.curr].fds
  {
    hide Clip, Blocked, Seek, Moved, Stretched;
  }

  lemma CallUndefined(s: State, r: Regs, e: Event)
    requires Inv(s) && !s.idle && s.curr in s.procs && e.Syscall? && FreshFile(s, e.found, e.id)
    ensures Handled(s, r, e) == Undefined <==> CallDangles(s, r)
  {
    hide Inv, Exited, Forked, Waited, Killed, ReadCall, WriteCall, SeekCall, CloseCall, DupCall, Dup2Call, IntArg, Dangles,
         Overspent, Dup2Dangles;
    FileCallsUndefined(s, r);
    Dup2Undefined(s, r);
    ForkUndefined(s, r);
    ExitUndefined(s, IntArg(r.rdi), r);
    NeverUndefined(s, r);
  }

  lemma NeverUndefined(s: State, r: Regs)
    requires s.curr in s.procs
    ensures Waited(s, r).Next? && Killed(s, r).Next?
  {
    hide IntArg;
  }

  lemma SwitchUndefined(s: State, r: Regs)
    requires Inv(s) && !s.idle && s.curr in s.procs
    ensures Switched(s, r) == Undefined <==> !Ring0(r) && s.procs[s.curr].kill && Overspent(s)
  {
    hide Inv, Overspent, Exited, LoadNext, Enqueued, Saved;
    if s.procs[s.curr].kill {
      ExitUndefined(s, KILL_STATUS, r);
      if Exited(s, KILL_STATUS, r).Next? {
        ExitedInv(s, KILL_STATUS, r);
        LoadNextInv(Exited(s, KILL_STATUS, r).s.(idle := true), r);
        LoadNextIdle(Exited(s, KILL_STATUS, r).s, r);
      }
    } else if Queue(s, Runnable) != [] {
      PreemptedInv(s, r);
      LoadNextInv(Enqueued(Saved(s, r), Runnable, s.curr).(idle := true), r);
      LoadNextIdle(Enqueued(Saved(s, r), Runnable, s.curr), r);
    }
  }

  lemma LoadNextIdle(s: State, r: Regs)
    ensures LoadNext(s, r) == LoadNext(s.(idle := true), r)
  {
  }

  lemma SyscallUndefined(s: State, e: Event)
    requires Inv(s) && !s.idle && s.curr in s.procs && e.Syscall? && FreshFile(s, e.found, e.id)
    ensures SyscallStep(s, e) == Undefined <==> CallDangles(s, e.r)
  {
    hide Inv, Handled, LoadNext, Dangles, Overspent;
    var r := UserSegments(e.r);
    CallUndefined(s, r, e);
    if Handled(s, r, e).Next? {
      HandledInv(s, r, e);
      var s1, r1 := Handled(s, r, e).s, Handled(s, r, e).regs;
      if s1.procs[s.curr].state != Runs {
        var r2 := r1.(rax := e.r.rax, rip := Sub64(r1.rip, 2));
        SavedInv(s1.(idle := true), s.curr, r2);
        var s2 := s1.(procs := s1.procs[s.curr := s1.procs[s.curr].(saved := r2)]);
        LoadNextInv(s2.(idle := true), r2);
        LoadNextIdle(s2, r2);
      }
    }
  }

  /** A kernel entry uses a released file exactly if: exit, or a tick or fault that kills, finds more descriptors for a
      file than references; fork finds a free pid and a stale descriptor; read, write, close or lseek gets a stale
      descriptor, and so does dup while a slot is free; or dup2 gets one, or two of one file with a single reference. */
  lemma StepUndefined(s: State, e: Event)
    requires Inv(s) && Enabled(s, e) && (e.Syscall? ==> FreshFile(s, e.found, e.id))
    ensures Step(s, e) == Undefined <==> EntryDangles(s, e)
  {
    hide Inv, Switched, LoadNext, SyscallStep, KeyStep, CallDangles;
    match e
    case Tick(r) =>
      if !s.idle {
        SwitchUndefined(s, r);
      }
    case Fault(r) =>
      CondemnedInv(s);
      SwitchUndefined(s.(procs := s.procs[s.curr := s.procs[s.curr].(kill := true)]), r);
    case Key(_, _) =>
    case Wake => LoadNextInv(s, s.procs[s.curr].saved);
    case Syscall(_, _, _, _, _) => SyscallUndefined(s, e);
  }

  /** A system call about a descriptor. */
  function FdCall(u: Regs, number: u64, fd: u64): Event {
    Syscall(u.(rax := number, rdi := fd), None, 0, None, 0)
  }

  /** From boot: init closes descriptor 0 and then reads from descriptor 1. */
  lemma TtyDangles(tty: nat, image: nat, file: File, r: Regs, u: Regs)
    requires tty != 0 && image != 0 && tty != image
    ensures RunOk(Boot(tty, image, file, r), [FdCall(u, 3, 0)])
    ensures var s := After(Boot(tty, image, file, r), [FdCall(u, 3, 0)]);
            Enabled(s, FdCall(u, 0, 1)) && Step(s, FdCall(u, 0, 1)) == Undefined
  {
    var s, e := Boot(tty, image, file, r), FdCall(u, 3, 0);
    var s' := CloseCall(s, UserSegments(e.r)).s;
    assert Step(s, e) == SyscallStep(s, e) && Step(s, e).s == s';
    assert [e][1..] == [] && After(s', []) == s' && RunOk(s', []);
    assert tty !in s'.files && s'.procs[s'.curr].fds[1] == tty;
  }

  // ---- Only the terminal.

  lemma Dup2Overdrawn(s: State, r: Regs, tty: nat)
    requires Inv(s) && !s.idle && Solvent(s, tty) && s.curr in s.procs && Dup2Dangles(s, r)
    ensures TtyOverdrawn(s, tty)
  {
    hide Solvent, Inv;
    var (fd, target, fds) := (Signed(r.rdi), Signed(r.rsi), s.procs[s.curr].fds);
    if Dangles(s, fd) {
      DanglingIsTty(s, tty, fd);
    } else if Dangles(s, target) {
      DanglingIsTty(s, tty, target);
    } else {
      TwoSlots(fds, fd, target);
      Overdrawn(s, tty, fds[fd]);
    }
  }

  lemma TwoSlots(fds: seq<nat>, i: nat, j: nat)
    requires i < |fds| && j < |fds| && i != j && fds[i] == fds[j]
    ensures multiset(fds)[fds[i]] >= 2
  {
    var (a, b) := (if i < j then i else j, if i < j then j else i);
    assert fds == fds[..a] + [fds[a]] + fds[a + 1..b] + [fds[b]] + fds[b + 1..];
  }

  lemma CallOverdrawn(s: State, r: Regs, tty: nat)
    requires Inv(s) && !s.idle && Solvent(s, tty) && s.curr in s.procs && CallDangles(s, r)
    ensures TtyOverdrawn(s, tty)
  {
    hide Inv, Solvent, Dup2Dangles;
    if r.rax == 33 {
      Dup2Overdrawn(s, r, tty);
    } else if r.rax == 60 {
      SpentOverdrawn(s, tty);
    } else if r.rax == 57 {
      var i :| Dangles(s, i);
      DanglingIsTty(s, tty, i);
    } else {
      DanglingIsTty(s, tty, Signed(r.rdi));
    }
  }

  lemma SpentOverdrawn(s: State, tty: nat)
    requires Inv(s) && Solvent(s, tty) && Overspent(s)
    ensures TtyOverdrawn(s, tty)
  {
    hide Inv, Solvent;
    var f :| f != 0 && multiset(s.procs[s.curr].fds)[f] > Refs(s.files, f);
    Overdrawn(s, tty, f);
  }

  /** Over runs from boot, a kernel entry uses a released file only because of the terminal init started with, when the
      current process has more descriptors for it than it has references. */
  lemma OnlyTtyDangles(tty: nat, image: nat, file: File, r: Regs, es: seq<Event>, e: Event)
    requires tty != 0 && image != 0 && tty != image && RunOk(Boot(tty, image, file, r), es)
    requires var s := After(Boot(tty, image, file, r), es);
             Enabled(s, e) && Step(s, e) == Undefined && (e.Syscall? ==> FreshFile(s, e.found, e.id))
    ensures TtyOverdrawn(After(Boot(tty, image, file, r), es), tty)
  {
    hide Inv, RunOk, After, Step, Solvent, CallDangles, Overspent;
    BootInv(tty, image, file, r);
    BootSolvent(tty, image, file, r);
    RunSolvent(Boot(tty, image, file, r), es, tty);
    var s := After(Boot(tty, image, file, r), es);
    StepUndefined(s, e);
    if e.Syscall? {
      CallOverdrawn(s, e.r, tty);
    } else {
      SpentOverdrawn(s, tty);
    }
  }

  lemma BootSolvent(tty: nat, image: nat, file: File, r: Regs)
    requires tty != 0 && image != 0 && tty != image
    ensures Solvent(Boot(tty, image, file, r), tty)
  {
    hide Balance;
    forall f | f != 0 && f != tty ensures Balance(Boot(tty, image, file, r), f) >= 0 {
      BootBalance(tty, image, file, r, f);
    }
  }
}
