/** What system calls mean to the processes, and where every key goes. */
module ProcKeys {
  import opened Machine
  import opened Vfs
  import opened ProcSpec
  import opened ProcInv
  import opened ProcRuns

  // ---- Keys: none is lost, doubled or reordered between the keyboard and the readers.

  /** The key a step puts into the ring buffer. */
  ghost function Pushed(s: State, e: Event): seq<byte> {
    if e.Key? && e.scan < |SCAN_CODES| && |s.keys| < RING_CAPACITY then [SCAN_CODES[e.scan]] else []
  }

  /** The call reads from the keyboard. */
  ghost predicate ReadsKeys(s: State, r: Regs)
    requires s.curr in s.procs
  {
    var fd, fds := Signed(r.rdi), s.procs[s.curr].fds;
    && FdValid(fd, fds) && fds[fd] in s.files && FromKeyboard(s.files[fds[fd]].backing)
    && s.files[fds[fd]].position < s.files[fds[fd]].size
  }

  /** The keys a step hands to the reading process: as many as its result says. */
  ghost function Delivered(s: State, e: Event): seq<byte>
    requires Enabled(s, e) && Step(s, e).Next?
  {
    var n := Step(s, e).regs.rax;
    if e.Syscall? && e.r.rax == 0 && ReadsKeys(s, e.r) && s.keys != [] && n <= |s.keys| then s.keys[..n] else []
  }

  lemma OtherCallsKeepKeys(s: State, r: Regs, e: Event)
    requires s.curr in s.procs && e.Syscall? && Handled(s, r, e).Next? && r.rax != 0
    ensures Handled(s, r, e).s.keys == s.keys
  {
    hide Closed, Shared, Seek, FirstNull, ClosedAll, SharedAll, FreePid, FirstZombie, HasChild, Buried, IntArg;
  }

  /** A read takes from the front as many keys as it reports, at most as many as asked for, and all there are if it
      reports fewer; it reports nothing only if nothing was asked for or it blocks. */
  lemma ReadTakesFront(s: State, r: Regs)
    requires s.curr in s.procs && ReadCall(s, r).Next?
    ensures var s', n := ReadCall(s, r).s, ReadCall(s, r).regs.rax;
            if ReadsKeys(s, r) && s.keys != [] then
              && n <= |s.keys| && s'.keys == s.keys[n..] && n <= r.rdx && s'.procs == s.procs
              && (n == Clip(s.files[s.procs[s.curr].fds[Signed(r.rdi)]], r.rdx) || s'.keys == [])
            else s'.keys == s.keys
  {
    hide Moved;
  }

  lemma LoadNextKeys(s: State, r: Regs)
    requires LoadNext(s, r).Next?
    ensures LoadNext(s, r).s.keys == s.keys
  {
  }

  lemma SyscallKeys(s: State, e: Event)
    requires Inv(s) && !s.idle && Enabled(s, e) && e.Syscall? && Step(s, e).Next?
    ensures s.keys == Delivered(s, e) + Step(s, e).s.keys
  {
    hide Inv, Handled, LoadNext, ReadCall;
    var r := UserSegments(e.r);
    var s1, r1 := Handled(s, r, e).s, Handled(s, r, e).regs;
    RunsNow(s);
    if r.rax == 0 {
      HandledReads(s, r, e);
      ReadTakesFront(s, r);
    } else {
      OtherCallsKeepKeys(s, r, e);
    }
    if s1.procs[s.curr].state != Runs {
      var r2 := r1.(rax := e.r.rax, rip := Sub64(r1.rip, 2));
      LoadNextKeys(s1.(procs := s1.procs[s.curr := s1.procs[s.curr].(saved := r2)]), r2);
    }
  }

  lemma HandledReads(s: State, r: Regs, e: Event)
    requires s.curr in s.procs && e.Syscall? && r.rax == 0
    ensures Handled(s, r, e) == ReadCall(s, r)
  {
  }

  lemma SwitchedKeys(s: State, r: Regs)
    requires s.curr in s.procs && Switched(s, r).Next?
    ensures Switched(s, r).s.keys == s.keys
  {
    hide LoadNext, ClosedAll, Buried;
    if s.procs[s.curr].kill {
      LoadNextKeys(Exited(s, KILL_STATUS, r).s, r);
    } else if Queue(s, Runnable) != [] {
      LoadNextKeys(Enqueued(Saved(s, r), Runnable, s.curr), r);
    }
  }

  lemma StepKeys(s: State, e: Event)
    requires Inv(s) && Enabled(s, e) && Step(s, e).Next?
    ensures s.keys + Pushed(s, e) == Delivered(s, e) + Step(s, e).s.keys
  {
    hide Inv, Switched, SyscallStep, LoadNext;
    match e
    case Tick(r) =>
      if !s.idle {
        SwitchedKeys(s, r);
      }
    case Fault(r) => SwitchedKeys(s.(procs := s.procs[s.curr := s.procs[s.curr].(kill := true)]), r);
    case Key(scan, _) =>
    case Wake => LoadNextKeys(s, s.procs[s.curr].saved);
    case Syscall(_, _, _, _, _) => SyscallKeys(s, e);
  }

  ghost function AllPushed(s: State, es: seq<Event>): seq<byte>
    requires RunOk(s, es)
    decreases |es|
  {
    if es == [] then [] else Pushed(s, es[0]) + AllPushed(Step(s, es[0]).s, es[1..])
  }

  ghost function AllDelivered(s: State, es: seq<Event>): seq<byte>
    requires RunOk(s, es)
    decreases |es|
  {
    if es == [] then [] else Delivered(s, es[0]) + AllDelivered(Step(s, es[0]).s, es[1..])
  }

  /** Over any run, what was waiting and what was stored is what was delivered followed by what is waiting now. */
  lemma {:induction false} RunKeys(s: State, es: seq<Event>)
    requires Inv(s) && RunOk(s, es)
    ensures s.keys + AllPushed(s, es) == AllDelivered(s, es) + After(s, es).keys
    decreases |es|
  {
    hide Inv, Step, Enabled, Pushed, Delivered;
    if es != [] {
      var s' := Step(s, es[0]).s;
      StepInv(s, es[0]);
      StepKeys(s, es[0]);
      RunKeys(s', es[1..]);
      calc {
        s.keys + (Pushed(s, es[0]) + AllPushed(s', es[1..]));
        (s.keys + Pushed(s, es[0])) + AllPushed(s', es[1..]);
        Delivered(s, es[0]) + (s'.keys + AllPushed(s', es[1..]));
        Delivered(s, es[0]) + AllDelivered(s', es[1..]) + After(s', es[1..]).keys;
      }
    }
  }

  // ---- fork and exit.

  /** fork gives the child the lowest free pid, the parent's descriptors and the end of the run queue, tells the parent
      the pid, and changes no other process; it panics exactly if no pid is free. */
  lemma ForkMeaning(s: State, r: Regs)
    requires Inv(s) && !s.idle
    ensures Forked(s, r) == Panic <==> forall p :: 1 <= p < MAX_PIDS ==> p in s.procs
    ensures Forked(s, r).Next? ==>
              var s', c := Forked(s, r).s, Forked(s, r).regs.rax;
              && c !in s.procs && c > 0 && (forall p :: 1 <= p < c ==> p in s.procs) && s'.procs.Keys == s.procs.Keys + {c}
              && ChildOf(s'.procs, c, s.curr) && s'.procs[c].fds == s.procs[s.curr].fds && !s'.procs[c].kill
              && (forall p :: p in s.procs ==> s'.procs[p] == s.procs[p])
              && Queue(s', Runnable) == Queue(s, Runnable) + [c] && s'.curr == s.curr
  {
    hide Placed, Parents, NoLostWakeup, FilesOk, SharedAll;
    assert FreePid(s.procs, 1).None? <==> forall p :: 1 <= p < MAX_PIDS ==> p in s.procs;
  }

  /** exit leaves a zombie with the given status and no descriptors, gives its children to init, makes the waiting parent
      runnable, and changes nothing else about other processes. */
  lemma ExitMeaning(s: State, status: int, r: Regs)
    requires Inv(s) && !s.idle && Exited(s, status, r).Next?
    ensures var s', parent := Exited(s, status, r).s, s.procs[s.curr].ppid;
            && s'.procs.Keys == s.procs.Keys && s'.procs[s.curr].state == Zombie && s'.procs[s.curr].status == status
            && s'.procs[s.curr].fds == NoFiles() && Queue(s', WaitOf(parent)) == []
            && (Queue(s, WaitOf(parent)) != [] ==> parent in Queue(s', Runnable) && s'.procs[parent].state == Runs)
            && forall p :: p in s.procs && p != s.curr ==> OnlyOrphaned(s, s', p)
  {
    hide ClosedAll, NoLostWakeup, FilesOk;
    InitCannotExit(s, status, r);
    assert ParentOk(s.procs, s.curr);
    var parent := s.procs[s.curr].ppid;
    assert PlaceOk(s, parent);
    forall p | p in s.procs && p != s.curr ensures OnlyOrphaned(s, Exited(s, status, r).s, p) {
    }
  }

  /** Process p is as before, except that a child of the dying process is init's now and its waiting parent can run. */
  ghost predicate OnlyOrphaned(s: State, s': State, p: nat)
    requires p in s.procs && s.curr in s.procs && p in s'.procs
  {
    var was := s.procs[p];
    s'.procs[p] == was.(ppid := if was.ppid == s.curr then 1 else was.ppid,
                        state := if p in Queue(s, WaitOf(s.procs[s.curr].ppid)) then Runs else was.state)
  }
}
