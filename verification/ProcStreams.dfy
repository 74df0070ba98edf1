/** What reads through one open file deliver, over every run. */
module ProcStreams {
  import opened Machine
  import opened Vfs
  import opened ProcSpec
  import opened ProcInv
  import opened ProcRuns
  import opened ProcCalls
  import ProcKeys

  /** A FAT12 file with its contents in memory, the position inside it. */
  ghost predicate Whole(file: File) {
    file.backing.Regular? && file.position <= file.size <= |file.backing.data| && file.size < TWO64 / 2
  }

  /** The event is the call with this number on a descriptor of file f. */
  ghost predicate CallOn(s: State, e: Event, number: nat, f: nat) {
    IsCall(s, e, number) && f != 0 && NamedBy(s, Signed(e.r.rdi)) == f
  }

  /** position + count does not wrap around. */
  ghost predicate NoWrap(s: State, e: Event, f: nat)
    requires e.Syscall? && f in s.files
  {
    s.files[f].position + e.r.rdx < TWO64
  }

  // ---- One step.

  /** A read of a FAT12 file delivers the bytes from its position on, as many as asked for or as are left; it reports how
      many, and moves the position behind them. Nothing else changes. */
  lemma ReadMeaning(s: State, e: Event, f: nat)
    requires Inv(s) && CallOn(s, e, 0, f) && f in s.files && Whole(s.files[f]) && NoWrap(s, e, f)
    ensures Step(s, e).Next?
    ensures var s', n, file := Step(s, e).s, Step(s, e).regs.rax, s.files[f];
            && n == (if e.r.rdx <= file.size - file.position then e.r.rdx else file.size - file.position)
            && Given(s, e.r) == file.backing.data[file.position..file.position + n]
            && s' == s.(files := s'.files) && f in s'.files && s'.files[f] == file.(position := s'.files[f].position)
            && s'.files[f].position == file.position + n && FileSet(s, s', f, Some(s'.files[f]))
  {
    hide Placed, Parents, NoLostWakeup, FilesOk, LoadNext;
    RunsNow(s);
    ReadStays(s, e, f);
    assert s.files[f := s.files[f]] == s.files;
  }

  lemma ReadStays(s: State, e: Event, f: nat)
    requires e.Syscall? && f in s.files && Whole(s.files[f]) && NoWrap(s, e, f)
    ensures s.files[f].position < s.files[f].size ==>
              Clip(s.files[f], e.r.rdx) == if e.r.rdx <= s.files[f].size - s.files[f].position then e.r.rdx
                                           else s.files[f].size - s.files[f].position
  {
    if s.files[f].position < s.files[f].size {
      ReadStaysInFile(s.files[f], e.r.rdx);
    }
  }

  /** A read through no descriptor, or of a device that can only be written, fails; a read at the end reports 0. */
  lemma ReadFails(s: State, e: Event)
    requires Inv(s) && IsCall(s, e, 0) && Step(s, e).Next?
    ensures var s', rax, f := Step(s, e).s, Step(s, e).regs.rax, NamedBy(s, Signed(e.r.rdi));
            && (f == 0 ==> rax == TWO64 - 1 && s' == s)
            && (f != 0 && f in s.files && s.files[f].position >= s.files[f].size ==> rax == 0 && s' == s)
            && (f != 0 && f in s.files && s.files[f].position < s.files[f].size && s.files[f].backing in {Output, Framebuffer} ==>
                  rax == TWO64 - 1 && s' == s)
  {
    hide Placed, Parents, NoLostWakeup, FilesOk, LoadNext;
    RunsNow(s);
  }

  /** What a read of the keyboard delivers are the keys it takes. */
  lemma GivenKeys(s: State, e: Event)
    requires Inv(s) && IsCall(s, e, 0) && Step(s, e).Next? && ProcKeys.ReadsKeys(s, e.r)
    ensures Given(s, e.r) == ProcKeys.Delivered(s, e)
  {
    hide Placed, Parents, NoLostWakeup, FilesOk, LoadNext, Moved, Clip;
    RunsNow(s);
  }

  // ---- What the other steps leave alone.

  /** But for the number of its descriptors, file f is as before, if it is still open. */
  ghost predicate AsBefore(files: Files, files': Files, f: nat) {
    f in files && f in files' ==> files'[f] == files[f].(refs := files'[f].refs)
  }

  lemma {:induction false} ClosedAsBefore(files: Files, fds: seq<nat>, n: nat, f: nat)
    requires n <= |fds| && ClosedAll(files, fds, n).Some?
    ensures AsBefore(files, ClosedAll(files, fds, n).value, f)
    ensures f !in files ==> f !in ClosedAll(files, fds, n).value
  {
    if n > 0 {
      ClosedAsBefore(files, fds, n - 1, f);
    }
  }

  lemma {:induction false} SharedAsBefore(files: Files, fds: seq<nat>, n: nat, f: nat)
    requires n <= |fds| && SharedAll(files, fds, n).Some?
    ensures AsBefore(files, SharedAll(files, fds, n).value, f)
    ensures f in files <==> f in SharedAll(files, fds, n).value
  {
    if n > 0 {
      SharedAsBefore(files, fds, n - 1, f);
    }
  }

  lemma DescriptorCalls(s: State, r: Regs, e: Event, f: nat)
    requires s.curr in s.procs && e.Syscall? && r.rax in {2, 3, 32, 33} && Handled(s, r, e).Next?
    ensures AsBefore(s.files, Handled(s, r, e).s.files, f)
  {
    hide FirstNull;
  }

  lemma PositionCalls(s: State, r: Regs, e: Event, f: nat)
    requires s.curr in s.procs && e.Syscall? && r.rax in {0, 1, 8} && Handled(s, r, e).Next? && f in s.files && f != 0
    requires s.files[f].backing.Regular? && (r.rax == 1 || NamedBy(s, Signed(r.rdi)) != f)
    ensures AsBefore(s.files, Handled(s, r, e).s.files, f)
  {
    hide FirstNull, Clip, Moved, Seek;
  }

  lemma ProcessCalls(s: State, r: Regs, e: Event, f: nat)
    requires s.curr in s.procs && e.Syscall? && r.rax !in {0, 1, 2, 3, 8, 32, 33} && Handled(s, r, e).Next?
    ensures AsBefore(s.files, Handled(s, r, e).s.files, f)
  {
    hide ClosedAll, SharedAll, Buried, FreePid, FirstZombie, HasChild, IntArg;
    if r.rax == 57 {
      SharedAsBefore(s.files, s.procs[s.curr].fds, |s.procs[s.curr].fds|, f);
    } else if r.rax == 60 {
      ClosedAsBefore(s.files, s.procs[s.curr].fds, |s.procs[s.curr].fds|, f);
    }
  }

  lemma LoadNextFiles(s: State, r: Regs)
    requires LoadNext(s, r).Next?
    ensures LoadNext(s, r).s.files == s.files
  {
  }

  lemma SwitchedFiles(s: State, r: Regs, f: nat)
    requires s.curr in s.procs && Switched(s, r).Next?
    ensures AsBefore(s.files, Switched(s, r).s.files, f)
  {
    hide ClosedAll, Buried, LoadNext;
    if s.procs[s.curr].kill {
      ClosedAsBefore(s.files, s.procs[s.curr].fds, |s.procs[s.curr].fds|, f);
      LoadNextFiles(Exited(s, KILL_STATUS, r).s, r);
    } else if Queue(s, Runnable) != [] {
      LoadNextFiles(Enqueued(Saved(s, r), Runnable, s.curr), r);
    }
  }

  lemma SyscallFiles(s: State, e: Event, f: nat)
    requires Inv(s) && Enabled(s, e) && e.Syscall? && Step(s, e).Next? && f in s.files && f != 0 && s.files[f].backing.Regular?
    requires !CallOn(s, e, 0, f) && !CallOn(s, e, 8, f)
    ensures AsBefore(s.files, Step(s, e).s.files, f)
  {
    hide Inv, Handled, LoadNext, AsBefore;
    var r := UserSegments(e.r);
    if r.rax in {2, 3, 32, 33} {
      DescriptorCalls(s, r, e, f);
    } else if r.rax in {0, 1, 8} {
      PositionCalls(s, r, e, f);
    } else {
      ProcessCalls(s, r, e, f);
    }
    var s1, r1 := Handled(s, r, e).s, Handled(s, r, e).regs;
    if s1.procs[s.curr].state != Runs {
      var r2 := r1.(rax := e.r.rax, rip := Sub64(r1.rip, 2));
      LoadNextFiles(s1.(procs := s1.procs[s.curr := s1.procs[s.curr].(saved := r2)]), r2);
    }
  }

  /** Only a read or a seek of a FAT12 file changes its size, its contents or its position. */
  lemma StepFiles(s: State, e: Event, f: nat)
    requires Inv(s) && Enabled(s, e) && Step(s, e).Next? && f in s.files && f != 0 && s.files[f].backing.Regular?
    requires !CallOn(s, e, 0, f) && !CallOn(s, e, 8, f)
    ensures AsBefore(s.files, Step(s, e).s.files, f)
  {
    hide Inv, Switched, LoadNext, SyscallStep;
    match e
    case Tick(r) =>
      if !s.idle {
        SwitchedFiles(s, r, f);
      }
    case Fault(r) => SwitchedFiles(s.(procs := s.procs[s.curr := s.procs[s.curr].(kill := true)]), r, f);
    case Key(_, _) =>
    case Wake => LoadNextFiles(s, s.procs[s.curr].saved);
    case Syscall(_, _, _, _, _) => SyscallFiles(s, e, f);
  }

  // ---- Runs.

  /** File f stays open all through the run, nobody seeks in it, and no count wraps around. */
  ghost predicate Streams(s: State, es: seq<Event>, f: nat)
    requires RunOk(s, es)
    decreases |es|
  {
    f in s.files &&
    (es == [] ||
     (!CallOn(s, es[0], 8, f) && (CallOn(s, es[0], 0, f) ==> NoWrap(s, es[0], f)) && Streams(Step(s, es[0]).s, es[1..], f)))
  }

  /** Everything the run's reads of file f deliver, whichever process reads through whichever descriptor. */
  ghost function AllGiven(s: State, es: seq<Event>, f: nat): seq<byte>
    requires RunOk(s, es)
    decreases |es|
  {
    if es == [] then []
    else (if CallOn(s, es[0], 0, f) then Given(s, es[0].r) else []) + AllGiven(Step(s, es[0]).s, es[1..], f)
  }

  /** Reads and positions go together: what was delivered are the contents from the old position to the new one. */
  lemma {:induction false} RunReads(s: State, es: seq<Event>, f: nat)
    requires Inv(s) && f != 0 && RunOk(s, es) && Streams(s, es, f) && Whole(s.files[f])
    ensures Inv(After(s, es)) && f in After(s, es).files
    ensures var was, now := s.files[f], After(s, es).files[f];
            && now == was.(position := now.position, refs := now.refs) && was.position <= now.position <= now.size
            && AllGiven(s, es, f) == was.backing.data[was.position..now.position]
    decreases |es|
  {
    hide Inv, Step, Enabled, Given, CallOn;
    if es != [] {
      var s' := Step(s, es[0]).s;
      StepInv(s, es[0]);
      if CallOn(s, es[0], 0, f) {
        ReadMeaning(s, es[0], f);
      } else {
        StepFiles(s, es[0], f);
      }
      RunReads(s', es[1..], f);
    }
  }

  /** The end of the file: after any such run, a read that asks for something reports 0 exactly when everything from the
      first position on has been delivered. */
  lemma ReadEnds(s: State, es: seq<Event>, f: nat, e: Event)
    requires Inv(s) && f != 0 && RunOk(s, es) && Streams(s, es, f) && Whole(s.files[f])
    requires var s' := After(s, es); f in s'.files && CallOn(s', e, 0, f) && NoWrap(s', e, f) && e.r.rdx > 0
    ensures var s', file := After(s, es), s.files[f];
            && Step(s', e).Next?
            && (Step(s', e).regs.rax == 0 <==> AllGiven(s, es, f) == file.backing.data[file.position..file.size])
  {
    hide Inv, Step, Enabled, Given, CallOn, After, AllGiven, RunOk;
    RunReads(s, es, f);
    ReadMeaning(After(s, es), e, f);
    var was, now := s.files[f], After(s, es).files[f];
    assert |was.backing.data[was.position..now.position]| == now.position - was.position;
    assert |was.backing.data[was.position..was.size]| == was.size - was.position;
  }
}
