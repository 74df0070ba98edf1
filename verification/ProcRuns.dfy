/** Runs of the process machine: the invariant, first-in first-out dispatch, and saved contexts. */
module ProcRuns {
  import opened Machine
  import opened Vfs
  import opened ProcSpec
  import opened ProcInv

  // ---- Every step keeps the invariant.

  ghost predicate Referenced(files: Files) {
    forall f :: f in files ==> f != 0 && files[f].refs > 0
  }

  /** A call that only changes files and one descriptor of the caller. */
  lemma FdInv(s: State, files: Files, i: nat, f: nat)
    requires Inv(s) && !s.idle && Referenced(files) && i < MAX_FDS
    ensures Inv(WithFd(s.(files := files), i, f))
  {
    hide WaitOk, ParentOk, PlaceOk, NoDup;
    CurrWaitsForNobody(s);
    QuietInv(s, WithFd(s.(files := files), i, f));
  }

  lemma FilesInv(s: State, files: Files, keys: seq<byte>)
    requires Inv(s) && Referenced(files) && |keys| <= |s.keys|
    ensures Inv(s.(files := files, keys := keys))
  {
    hide WaitOk, ParentOk, PlaceOk, NoDup;
    QuietInv(s, s.(files := files, keys := keys));
  }

  /** How a handler leaves the current process: still running, or off the processor. */
  ghost predicate Left(s: State, s1: State) {
    && s1.curr == s.curr && s.curr in s1.procs
    && if s1.procs[s.curr].state == Runs then Inv(s1) && !s1.idle else Inv(s1.(idle := true))
  }

  lemma ReadInv(s: State, r: Regs)
    requires Inv(s) && !s.idle && ReadCall(s, r).Next?
    ensures Left(s, ReadCall(s, r).s)
  {
    hide WaitOk, ParentOk, PlaceOk, NoDup, Clip, Blocked;
    CurrWaitsForNobody(s);
    var fd, fds := Signed(r.rdi), s.procs[s.curr].fds;
    if FdValid(fd, fds) && fds[fd] in s.files {
      var f, file := fds[fd], s.files[fds[fd]];
      var n := Clip(file, r.rdx);
      if FromKeyboard(file.backing) && file.position < file.size && n > 0 && s.keys == [] {
        BlockedInv(s, Keys);
        BlockedCurr(s, Keys);
      } else {
        var m: u64 := if n <= |s.keys| then n else |s.keys|;
        FilesInv(s, s.files[f := Moved(file, m)], s.keys[m..]);
        FilesInv(s, s.files[f := Moved(file, n)], s.keys);
      }
    }
  }

  lemma BlockedCurr(s: State, q: QueueId)
    requires s.curr in s.procs
    ensures Blocked(s, q).curr == s.curr && s.curr in Blocked(s, q).procs && Blocked(s, q).procs[s.curr].state == Waits
    ensures Blocked(s, q).procs[s.curr].ppid == s.procs[s.curr].ppid
  {
  }

  lemma WaitedInv(s: State, r: Regs)
    requires Inv(s) && !s.idle && Waited(s, r).Next?
    ensures Left(s, Waited(s, r).s)
  {
    hide WaitOk, ParentOk, PlaceOk, NoDup, Blocked;
    CurrWaitsForNobody(s);
    match FirstZombie(s.procs, s.curr, 0)
    case Some(z) => ReapedInv(s, z);
    case None =>
      if HasChild(s.procs, s.curr, MAX_PIDS) {
        NoZombieChild(s);
        BlockedInv(s, WaitOf(s.curr));
        BlockedCurr(s, WaitOf(s.curr));
      }
  }

  lemma NoZombieChild(s: State)
    requires Shape(s) && FirstZombie(s.procs, s.curr, 0) == None
    ensures forall c :: !ZombieChild(s.procs, c, s.curr)
  {
  }

  lemma KilledInv(s: State, r: Regs)
    requires Inv(s) && !s.idle && Killed(s, r).Next?
    ensures Left(s, Killed(s, r).s)
  {
    hide WaitOk, ParentOk, PlaceOk, NoDup, IntArg;
    CurrWaitsForNobody(s);
    QuietInv(s, Killed(s, r).s);
  }

  lemma OpenInv(s: State, r: Regs, found: Option<File>, id: nat)
    requires Inv(s) && !s.idle && OpenCall(s, r, found, id).Next?
    ensures Left(s, OpenCall(s, r, found, id).s)
  {
    hide WaitOk, ParentOk, PlaceOk, NoDup, WithFd;
    CurrWaitsForNobody(s);
    if found.Some? {
      var files := s.files[id := Opened(found.value.size, found.value.backing)];
      FilesInv(s, files, s.keys);
      match FirstNull(s.procs[s.curr].fds, 0)
      case None =>
      case Some(i) =>
        FdInv(s, files, i, id);
        WithFdCurr(s.(files := files), i, id);
    }
  }

  lemma WithFdCurr(s: State, i: nat, f: nat)
    requires s.curr in s.procs && i < |s.procs[s.curr].fds|
    ensures var s' := WithFd(s, i, f); s'.curr == s.curr && s'.idle == s.idle && s.curr in s'.procs &&
                                       s'.procs[s.curr].state == s.procs[s.curr].state
  {
  }

  lemma CloseInv(s: State, r: Regs)
    requires Inv(s) && !s.idle && CloseCall(s, r).Next?
    ensures Left(s, CloseCall(s, r).s)
  {
    hide WaitOk, ParentOk, PlaceOk, NoDup, WithFd;
    CurrWaitsForNobody(s);
    var fd, fds := Signed(r.rdi), s.procs[s.curr].fds;
    if FdValid(fd, fds) {
      var files := Closed(s.files, fds[fd]).value;
      FdInv(s, files, fd, 0);
      WithFdCurr(s.(files := files), fd, 0);
    }
  }

  lemma DupInv(s: State, r: Regs)
    requires Inv(s) && !s.idle && DupCall(s, r).Next?
    ensures Left(s, DupCall(s, r).s)
  {
    hide WaitOk, ParentOk, PlaceOk, NoDup, WithFd;
    CurrWaitsForNobody(s);
    var fd, fds := Signed(r.rdi), s.procs[s.curr].fds;
    if FdValid(fd, fds) && FirstNull(fds, 0).Some? {
      var files, i := Shared(s.files, fds[fd]).value, FirstNull(fds, 0).value;
      FdInv(s, files, i, fds[fd]);
      WithFdCurr(s.(files := files), i, fds[fd]);
    }
  }

  lemma Dup2Inv(s: State, r: Regs)
    requires Inv(s) && !s.idle && Dup2Call(s, r).Next?
    ensures Left(s, Dup2Call(s, r).s)
  {
    hide WaitOk, ParentOk, PlaceOk, NoDup, WithFd;
    CurrWaitsForNobody(s);
    var (fd, target, fds) := (Signed(r.rdi), Signed(r.rsi), s.procs[s.curr].fds);
    if FdValid(fd, fds) && 0 <= target < |fds| && fd != target {
      var closed := (if fds[target] != 0 then Closed(s.files, fds[target]) else Some(s.files)).value;
      var files := Shared(closed, fds[fd]).value;
      FdInv(s, files, target, fds[fd]);
      WithFdCurr(s.(files := files), target, fds[fd]);
    }
  }

  lemma WriteInv(s: State, r: Regs)
    requires Inv(s) && !s.idle && WriteCall(s, r).Next?
    ensures Left(s, WriteCall(s, r).s)
  {
    hide WaitOk, ParentOk, PlaceOk, NoDup;
    CurrWaitsForNobody(s);
    var fd, fds := Signed(r.rdi), s.procs[s.curr].fds;
    if FdValid(fd, fds) {
      var file := s.files[fds[fd]];
      FilesInv(s, s.files[fds[fd] := Stretched(Moved(file, Written(file.backing, r.rdx)))], s.keys);
    }
  }

  lemma SeekInv(s: State, r: Regs)
    requires Inv(s) && !s.idle && SeekCall(s, r).Next?
    ensures Left(s, SeekCall(s, r).s)
  {
    hide WaitOk, ParentOk, PlaceOk, NoDup;
    CurrWaitsForNobody(s);
    var fd, fds := Signed(r.rdi), s.procs[s.curr].fds;
    if FdValid(fd, fds) && r.rdx % TWO32 <= 2 {
      var whence := if r.rdx % TWO32 == 0 then Set else if r.rdx % TWO32 == 1 then Cur else End;
      FilesInv(s, s.files[fds[fd] := Seek(s.files[fds[fd]], Signed(r.rsi), whence).0], s.keys);
    }
  }

  lemma HandledInv(s: State, r: Regs, e: Event)
    requires Inv(s) && !s.idle && e.Syscall? && Handled(s, r, e).Next?
    ensures Left(s, Handled(s, r, e).s)
  {
    hide Inv, Exited, Forked, Waited, Killed, ReadCall, WriteCall, OpenCall, CloseCall, DupCall, Dup2Call, SeekCall, IntArg;
    RunsNow(s);
    if r.rax == 0 {
      ReadInv(s, r);
    } else if r.rax == 1 {
      WriteInv(s, r);
    } else if r.rax == 2 {
      OpenInv(s, r, e.found, e.id);
    } else if r.rax == 3 {
      CloseInv(s, r);
    } else if r.rax == 8 {
      SeekInv(s, r);
    } else if r.rax == 32 {
      DupInv(s, r);
    } else if r.rax == 33 {
      Dup2Inv(s, r);
    } else if r.rax == 57 {
      ForkedInv(s, r);
      ForkedCurr(s, r);
    } else if r.rax == 60 {
      ExitedInv(s, IntArg(r.rdi), r);
    } else if r.rax == 61 {
      WaitedInv(s, r);
    } else if r.rax == 62 {
      KilledInv(s, r);
    }
  }

  lemma RunsNow(s: State)
    requires Inv(s) && !s.idle
    ensures s.curr in s.procs && s.procs[s.curr].state == Runs
  {
    CurrWaitsForNobody(s);
  }

  lemma ForkedCurr(s: State, r: Regs)
    requires s.curr in s.procs && Forked(s, r).Next?
    ensures var s' := Forked(s, r).s; s'.curr == s.curr && s'.idle == s.idle && s.curr in s'.procs && s'.procs[s.curr] == s.procs[s.curr]
  {
  }

  lemma SavedInv(s: State, p: nat, r: Regs)
    requires Inv(s) && p in s.procs
    ensures Inv(s.(procs := s.procs[p := s.procs[p].(saved := r)]))
  {
    hide WaitOk, ParentOk, PlaceOk, NoDup;
    QuietInv(s, s.(procs := s.procs[p := s.procs[p].(saved := r)]));
  }

  lemma SyscallInv(s: State, e: Event)
    requires Inv(s) && !s.idle && e.Syscall? && SyscallStep(s, e).Next?
    ensures Inv(SyscallStep(s, e).s)
  {
    hide Inv, Handled;
    RunsNow(s);
    HandledInv(s, UserSegments(e.r), e);
    var s1, r1 := Handled(s, UserSegments(e.r), e).s, Handled(s, UserSegments(e.r), e).regs;
    if s1.procs[s.curr].state != Runs {
      var r2 := r1.(rax := e.r.rax, rip := Sub64(r1.rip, 2));
      SavedInv(s1.(idle := true), s.curr, r2);
      var s2 := s1.(procs := s1.procs[s.curr := s1.procs[s.curr].(saved := r2)]);
      LoadNextInv(s2.(idle := true), r2);
    }
  }

  lemma SwitchedInv(s: State, r: Regs)
    requires Inv(s) && !s.idle && Switched(s, r).Next?
    ensures Inv(Switched(s, r).s)
  {
    hide Inv, Exited, Enqueued, Saved;
    RunsNow(s);
    if s.procs[s.curr].kill {
      ExitedInv(s, KILL_STATUS, r);
      LoadNextInv(Exited(s, KILL_STATUS, r).s.(idle := true), r);
    } else {
      PreemptedInv(s, r);
      LoadNextInv(Enqueued(Saved(s, r), Runnable, s.curr).(idle := true), r);
    }
  }

  /** Every step from a state that meets the invariant leads to one that does. */
  lemma StepInv(s: State, e: Event)
    requires Inv(s) && Enabled(s, e) && Step(s, e).Next?
    ensures Inv(Step(s, e).s)
  {
    hide Inv, Switched, SyscallStep, KeyStep, LoadNext;
    match e
    case Tick(r) =>
      if !s.idle {
        SwitchedInv(s, r);
      }
    case Fault(r) =>
      var s1 := s.(procs := s.procs[s.curr := s.procs[s.curr].(kill := true)]);
      CondemnedInv(s);
      SwitchedInv(s1, r);
    case Key(scan, _) => KeyInv(s, scan);
    case Wake => LoadNextInv(s, s.procs[s.curr].saved);
    case Syscall(_, _, _, _, _) => SyscallInv(s, e);
  }

  lemma CondemnedInv(s: State)
    requires Inv(s)
    ensures s.curr in s.procs && Inv(s.(procs := s.procs[s.curr := s.procs[s.curr].(kill := true)]))
  {
    hide WaitOk, ParentOk, PlaceOk, NoDup;
    QuietInv(s, s.(procs := s.procs[s.curr := s.procs[s.curr].(kill := true)]));
  }

  lemma BootInv(tty: nat, image: nat, file: File, r: Regs)
    requires tty != 0 && image != 0 && tty != image
    ensures Inv(Boot(tty, image, file, r))
  {
    var s := Boot(tty, image, file, r);
    assert PlaceOk(s, 1) && ParentOk(s.procs, 1);
  }

  // ---- Runs.

  ghost predicate RunOk(s: State, es: seq<Event>)
    decreases |es|
  {
    es == [] || (Enabled(s, es[0]) && Step(s, es[0]).Next? && RunOk(Step(s, es[0]).s, es[1..]))
  }

  ghost function After(s: State, es: seq<Event>): State
    requires RunOk(s, es)
    decreases |es|
  {
    if es == [] then s else After(Step(s, es[0]).s, es[1..])
  }

  /** Every state reachable from boot meets the invariant. */
  lemma {:induction false} RunInv(s: State, es: seq<Event>)
    requires Inv(s) && RunOk(s, es)
    ensures Inv(After(s, es))
    decreases |es|
  {
    hide Inv, Step, Enabled;
    if es != [] {
      StepInv(s, es[0]);
      RunInv(Step(s, es[0]).s, es[1..]);
    }
  }

  // ---- First in, first out.

  /** The processor is given to a process. */
  ghost predicate Dispatches(s: State, s': State) {
    !s'.idle && (s.idle || s'.curr != s.curr)
  }

  /** Between two states the run queue grew at its end, and a dispatched process was its head. */
  ghost predicate QueueMoved(s: State, s': State, added: seq<nat>) {
    Queue(s, Runnable) + added == (if Dispatches(s, s') then [s'.curr] else []) + Queue(s', Runnable)
  }

  ghost predicate Grew(s: State, s1: State, added: seq<nat>) {
    Queue(s1, Runnable) == Queue(s, Runnable) + added
  }

  lemma ReadGrew(s: State, r: Regs)
    requires s.curr in s.procs && ReadCall(s, r).Next?
    ensures Grew(s, ReadCall(s, r).s, [])
  {
    hide Clip, Moved;
  }

  lemma WaitedGrew(s: State, r: Regs)
    requires s.curr in s.procs && Waited(s, r).Next?
    ensures Grew(s, Waited(s, r).s, [])
  {
  }

  lemma FileCallsGrew(s: State, r: Regs, e: Event)
    requires s.curr in s.procs && e.Syscall? && Handled(s, r, e).Next? && r.rax in {1, 2, 3, 8, 32, 33}
    ensures Grew(s, Handled(s, r, e).s, [])
  {
    hide Closed, Shared, Seek, FirstNull;
  }

  lemma ExitedGrew(s: State, status: int, r: Regs)
    requires s.curr in s.procs && Exited(s, status, r).Next?
    ensures Grew(s, Exited(s, status, r).s, Queue(s, WaitOf(Buried(s.procs, s.curr, status)[s.curr].ppid)))
  {
    hide ClosedAll, Buried;
  }

  lemma HandledGrew(s: State, r: Regs, e: Event) returns (added: seq<nat>)
    requires s.curr in s.procs && e.Syscall? && Handled(s, r, e).Next?
    ensures Grew(s, Handled(s, r, e).s, added)
  {
    hide Exited, Forked, Waited, Killed, ReadCall, WriteCall, OpenCall, CloseCall, DupCall, Dup2Call, SeekCall, IntArg;
    if r.rax == 0 {
      ReadGrew(s, r);
      added := [];
    } else if r.rax in {1, 2, 3, 8, 32, 33} {
      FileCallsGrew(s, r, e);
      added := [];
    } else if r.rax == 57 {
      added := ForkedGrew(s, r);
    } else if r.rax == 60 {
      ExitedGrew(s, IntArg(r.rdi), r);
      added := Queue(s, WaitOf(Buried(s.procs, s.curr, IntArg(r.rdi))[s.curr].ppid));
    } else if r.rax == 61 {
      WaitedGrew(s, r);
      added := [];
    } else {
      KilledGrew(s, r);
      added := [];
    }
  }

  lemma ForkedGrew(s: State, r: Regs) returns (added: seq<nat>)
    requires s.curr in s.procs && Forked(s, r).Next?
    ensures Grew(s, Forked(s, r).s, added)
  {
    hide SharedAll;
    added := [FreePid(s.procs, 1).value];
  }

  lemma KilledGrew(s: State, r: Regs)
    ensures Killed(s, r).Next? && Grew(s, Killed(s, r).s, [])
  {
    hide IntArg;
  }

  /** Leaving the processor and loading the next process takes the head of the queue. */
  lemma LoadNextMoved(s: State, s1: State, r: Regs, added: seq<nat>)
    requires Grew(s, s1, added) && LoadNext(s1, r).Next? && s.curr !in Queue(s1, Runnable)
    ensures QueueMoved(s, LoadNext(s1, r).s, added)
  {
  }

  lemma QueueLaw(s: State, e: Event) returns (added: seq<nat>)
    requires Inv(s) && Enabled(s, e) && Step(s, e).Next?
    ensures QueueMoved(s, Step(s, e).s, added)
  {
    hide Inv, Switched, SyscallStep, KeyStep, LoadNext;
    match e
    case Tick(r) =>
      if s.idle {
        added := [];
      } else {
        added := SwitchedMoved(s, r);
      }
    case Fault(r) =>
      var s1 := s.(procs := s.procs[s.curr := s.procs[s.curr].(kill := true)]);
      CondemnedInv(s);
      added := SwitchedMoved(s1, r);
      assert QueueMoved(s, Step(s, e).s, added);
    case Key(scan, _) =>
      added := if scan < |SCAN_CODES| then Queue(s, Keys) else [];
      KeyMoved(s, scan);
    case Wake =>
      added := [];
      WakeMoved(s);
    case Syscall(_, _, _, _, _) => added := SyscallMoved(s, e);
  }

  lemma KeyMoved(s: State, scan: nat)
    ensures QueueMoved(s, KeyStep(s, scan), if scan < |SCAN_CODES| then Queue(s, Keys) else [])
  {
  }

  lemma WakeMoved(s: State)
    requires s.idle && s.curr in s.procs && LoadNext(s, s.procs[s.curr].saved).Next?
    ensures QueueMoved(s, LoadNext(s, s.procs[s.curr].saved).s, [])
  {
  }

  lemma SwitchedMoved(s: State, r: Regs) returns (added: seq<nat>)
    requires Inv(s) && !s.idle && s.curr in s.procs && Switched(s, r).Next?
    ensures QueueMoved(s, Switched(s, r).s, added)
  {
    hide Inv, Exited, LoadNext;
    NotQueued(s);
    if s.procs[s.curr].kill {
      ExitedInv(s, KILL_STATUS, r);
      ExitedGrew(s, KILL_STATUS, r);
      added := Queue(s, WaitOf(Buried(s.procs, s.curr, KILL_STATUS)[s.curr].ppid));
      OffProcessor(Exited(s, KILL_STATUS, r).s);
      LoadNextMoved(s, Exited(s, KILL_STATUS, r).s, r, added);
    } else if Queue(s, Runnable) == [] {
      added := [];
    } else {
      added := [s.curr];
      PreemptMoved(s, r);
    }
  }

  lemma NotQueued(s: State)
    requires Inv(s) && !s.idle
    ensures s.curr in s.procs && s.curr !in Queue(s, Runnable)
  {
    CurrWaitsForNobody(s);
  }

  lemma OffProcessor(s: State)
    requires Inv(s.(idle := true)) && s.curr in s.procs && s.procs[s.curr].state != Runs
    ensures s.curr !in Queue(s, Runnable)
  {
    assert PlaceOk(s.(idle := true), s.curr);
  }

  lemma PreemptMoved(s: State, r: Regs)
    requires s.curr in s.procs && Queue(s, Runnable) != [] && s.curr !in Queue(s, Runnable)
    requires LoadNext(Enqueued(Saved(s, r), Runnable, s.curr), r).Next?
    ensures QueueMoved(s, LoadNext(Enqueued(Saved(s, r), Runnable, s.curr), r).s, [s.curr])
  {
    assert Queue(s, Runnable)[0] in Queue(s, Runnable);
  }

  lemma SyscallMoved(s: State, e: Event) returns (added: seq<nat>)
    requires Inv(s) && !s.idle && s.curr in s.procs && e.Syscall? && SyscallStep(s, e).Next?
    ensures QueueMoved(s, SyscallStep(s, e).s, added)
  {
    hide Inv, Handled, LoadNext;
    var r := UserSegments(e.r);
    HandledInv(s, r, e);
    added := HandledGrew(s, r, e);
    var s1, r1 := Handled(s, r, e).s, Handled(s, r, e).regs;
    if s1.procs[s.curr].state != Runs {
      var r2 := r1.(rax := e.r.rax, rip := Sub64(r1.rip, 2));
      var s2 := s1.(procs := s1.procs[s.curr := s1.procs[s.curr].(saved := r2)]);
      OffProcessor(s1);
      LoadNextMoved(s, s2, r2, added);
    }
  }

  /** The processes that get the processor in a run, in order. */
  ghost function Dispatched(s: State, es: seq<Event>): seq<nat>
    requires RunOk(s, es)
    decreases |es|
  {
    if es == [] then []
    else (if Dispatches(s, Step(s, es[0]).s) then [Step(s, es[0]).s.curr] else []) + Dispatched(Step(s, es[0]).s, es[1..])
  }

  /** A process with k others ahead of it gets the processor at exactly the (k+1)th dispatch, and until then it has
      moved up by one place for each. */
  lemma {:induction false} FirstInFirstOut(s: State, es: seq<Event>, k: nat)
    requires Inv(s) && RunOk(s, es) && k < |Queue(s, Runnable)|
    ensures var d, p := Dispatched(s, es), Queue(s, Runnable)[k];
            if k < |d| then d[k] == p && p !in d[..k]
            else |d| <= k && p !in d && k - |d| < |Queue(After(s, es), Runnable)| && Queue(After(s, es), Runnable)[k - |d|] == p
    decreases |es|
  {
    hide Inv, Step, Enabled, Dispatches, Queue;
    if es != [] {
      var s' := Step(s, es[0]).s;
      var queue, queue', rest := Queue(s, Runnable), Queue(s', Runnable), Dispatched(s', es[1..]);
      StepInv(s, es[0]);
      var added := QueueLaw(s, es[0]);
      QueueOnce(s);
      if Dispatches(s, s') {
        HeadLeaves(queue, added, s'.curr, queue', k);
        if k > 0 {
          FirstInFirstOut(s', es[1..], k - 1);
        }
        OneMoreDispatch(s'.curr, rest, queue[k], k);
      } else {
        NobodyLeaves(queue, added, queue', k);
        FirstInFirstOut(s', es[1..], k);
        assert [] + rest == rest;
      }
    }
  }

  lemma HeadLeaves(queue: seq<nat>, added: seq<nat>, head: nat, queue': seq<nat>, k: nat)
    requires queue + added == [head] + queue' && k < |queue| && NoDup(queue)
    ensures queue[0] == head && (k > 0 ==> k - 1 < |queue'| && queue'[k - 1] == queue[k] && queue[k] != head)
  {
    assert (queue + added)[0] == head && (queue + added)[k] == queue[k];
    if k > 0 {
      assert ([head] + queue')[k] == queue'[k - 1];
    }
  }

  lemma NobodyLeaves(queue: seq<nat>, added: seq<nat>, queue': seq<nat>, k: nat)
    requires queue + added == [] + queue' && k < |queue|
    ensures k < |queue'| && queue'[k] == queue[k]
  {
    assert (queue + added)[k] == queue[k] && ([] + queue')[k] == queue'[k];
  }

  /** One more process in front of those dispatched later. */
  lemma OneMoreDispatch(head: nat, rest: seq<nat>, p: nat, k: nat)
    ensures var d := [head] + rest;
            && (k == 0 && p == head ==> k < |d| && d[k] == p && p !in d[..k])
            && (0 < k < |d| && p != head && rest[k - 1] == p && p !in rest[..k - 1] ==> d[k] == p && p !in d[..k])
            && (p != head && p !in rest ==> p !in d)
  {
    var d := [head] + rest;
    assert 0 < k < |d| ==> d[..k] == [head] + rest[..k - 1];
  }

  lemma QueueOnce(s: State)
    requires Inv(s)
    ensures NoDup(Queue(s, Runnable))
  {
  }
}
