/** The intrusive task queues of kernel/process_manager/scheduler.c. */
module TaskQueues {
  import opened Machine
  import opened ProcSpec

  /** struct task_queue; a process is named by its pid, 0 is NULL. */
  datatype Ends = Ends(head: nat, rear: nat)

  /** The `next` field of each process control block. */
  type Nexts = map<nat, nat>

  ghost predicate LinkOk(next: Nexts, list: seq<nat>, i: nat)
    requires i < |list|
  {
    list[i] != 0 && list[i] in next && next[list[i]] == if i + 1 < |list| then list[i + 1] else 0
  }

  /** The links from head to rear spell `list`. */
  ghost predicate Chain(next: Nexts, ends: Ends, list: seq<nat>) {
    && NoDup(list) && ends == (if list == [] then Ends(0, 0) else Ends(list[0], list[|list| - 1]))
    && forall i :: 0 <= i < |list| ==> LinkOk(next, list, i)
  }

  ghost predicate Apart(a: seq<nat>, b: seq<nat>) {
    forall x :: x in a ==> x !in b
  }

  /** Every queue is a chain and no process is in two of them. */
  ghost predicate Links(next: Nexts, queues: map<QueueId, Ends>, lists: Lists) {
    && queues.Keys == lists.Keys
    && (forall q :: q in lists ==> Chain(next, queues[q], lists[q]))
    && (forall q, k :: q in lists && k in lists && q != k ==> Apart(lists[q], lists[k]))
  }

  ghost predicate InNoQueue(lists: Lists, p: nat) {
    forall q :: q in lists ==> p !in lists[q]
  }

  /** Links of processes outside a list do not matter to it. */
  lemma ChainFrame(next: Nexts, next': Nexts, ends: Ends, list: seq<nat>)
    requires Chain(next, ends, list) && forall p :: p in list ==> p in next' && p in next && next'[p] == next[p]
    ensures Chain(next', ends, list)
  {
    forall i | 0 <= i < |list| ensures LinkOk(next', list, i) {
      assert LinkOk(next, list, i) && list[i] in list;
    }
  }

  ghost function EnqueuedNext(next: Nexts, ends: Ends, p: nat): Nexts {
    if ends.rear == 0 then next[p := 0] else next[p := 0][ends.rear := p]
  }

  ghost function EnqueuedEnds(ends: Ends, p: nat): Ends {
    if ends.rear == 0 then Ends(p, p) else Ends(ends.head, p)
  }

  lemma EnqueuedChain(next: Nexts, ends: Ends, list: seq<nat>, p: nat)
    requires Chain(next, ends, list) && p !in list && p != 0
    ensures Chain(EnqueuedNext(next, ends, p), EnqueuedEnds(ends, p), list + [p])
  {
    var next', list' := EnqueuedNext(next, ends, p), list + [p];
    if list != [] {
      assert LinkOk(next, list, |list| - 1);
    }
    forall i | 0 <= i < |list'| ensures LinkOk(next', list', i) {
      if i < |list| {
        assert LinkOk(next, list, i);
      }
    }
  }

  lemma EnqueuedLinks(next: Nexts, queues: map<QueueId, Ends>, lists: Lists, q: QueueId, p: nat)
    requires Links(next, queues, lists) && q in lists && p != 0 && InNoQueue(lists, p)
    ensures Links(EnqueuedNext(next, queues[q], p), queues[q := EnqueuedEnds(queues[q], p)], lists[q := lists[q] + [p]])
    ensures p in next ==> EnqueuedNext(next, queues[q], p).Keys == next.Keys
  {
    hide LinkOk;
    var next', lists' := EnqueuedNext(next, queues[q], p), lists[q := lists[q] + [p]];
    EnqueuedChain(next, queues[q], lists[q], p);
    LastIn(next, queues[q], lists[q]);
    forall k | k in lists && k != q ensures Chain(next', queues[k], lists[k]) {
      MembersIn(next, queues[k], lists[k]);
      assert Apart(lists[q], lists[k]) && Apart(lists[k], lists[q]);
      ChainFrame(next, next', queues[k], lists[k]);
    }
    forall a, b | a in lists' && b in lists' && a != b ensures Apart(lists'[a], lists'[b]) {
      assert Apart(lists[a], lists[b]) && p !in lists[a] && p !in lists[b];
    }
  }

  lemma LastIn(next: Nexts, ends: Ends, list: seq<nat>)
    requires Chain(next, ends, list)
    ensures list == [] <==> ends.rear == 0
    ensures list == [] <==> ends.head == 0
    ensures list != [] ==> ends.rear in list && ends.rear in next && ends.head in list && ends.head in next
    ensures list != [] ==> ends.head == list[0] && next[list[0]] == (if |list| > 1 then list[1] else 0)
    ensures list != [] ==> (ends.head == ends.rear <==> |list| == 1)
  {
    if list != [] {
      assert LinkOk(next, list, 0) && LinkOk(next, list, |list| - 1);
    }
  }

  lemma QueueEmpty(next: Nexts, queues: map<QueueId, Ends>, lists: Lists, q: QueueId)
    requires Links(next, queues, lists) && q in lists
    ensures q in queues && (queues[q].head == 0 <==> lists[q] == [])
  {
    LastIn(next, queues[q], lists[q]);
  }

  lemma MembersIn(next: Nexts, ends: Ends, list: seq<nat>)
    requires Chain(next, ends, list)
    ensures forall p :: p in list ==> p in next && p != 0
  {
    forall p | p in list ensures p in next && p != 0 {
      var i :| 0 <= i < |list| && list[i] == p;
      assert LinkOk(next, list, i);
    }
  }

  ghost function DequeuedEnds(next: Nexts, ends: Ends): Ends
    requires ends.head in next
  {
    Ends(next[ends.head], if ends.head == ends.rear then 0 else ends.rear)
  }

  lemma DequeuedChain(next: Nexts, ends: Ends, list: seq<nat>)
    requires Chain(next, ends, list) && list != [] && ends.head in next
    ensures Chain(next[ends.head := 0], DequeuedEnds(next, ends), list[1..])
  {
    LastIn(next, ends, list);
    var next', list' := next[ends.head := 0], list[1..];
    forall i | 0 <= i < |list'| ensures LinkOk(next', list', i) {
      assert LinkOk(next, list, i + 1);
    }
  }

  lemma DequeuedLinks(next: Nexts, queues: map<QueueId, Ends>, lists: Lists, q: QueueId)
    requires Links(next, queues, lists) && q in lists && lists[q] != []
    ensures queues[q].head in next && queues[q].head == lists[q][0]
    ensures Links(next[queues[q].head := 0], queues[q := DequeuedEnds(next, queues[q])], lists[q := lists[q][1..]])
    ensures InNoQueue(lists[q := lists[q][1..]], lists[q][0])
  {
    hide LinkOk;
    var p, lists' := lists[q][0], lists[q := lists[q][1..]];
    LastIn(next, queues[q], lists[q]);
    var next' := next[p := 0];
    DequeuedChain(next, queues[q], lists[q]);
    forall k | k in lists && k != q ensures Chain(next', queues[k], lists[k]) && p !in lists[k] {
      MembersIn(next, queues[k], lists[k]);
      assert Apart(lists[q], lists[k]);
      ChainFrame(next, next', queues[k], lists[k]);
    }
    forall a, b | a in lists' && b in lists' && a != b ensures Apart(lists'[a], lists'[b]) {
      assert Apart(lists[a], lists[b]);
    }
  }
}

/** The process manager as the kernel runs it: fields changed in place, loops over pids and descriptors. Each method is
    tied to the step of ProcSpec it carries out. */
module Processes {
  import opened Machine
  import opened Vfs
  import opened ProcSpec
  import opened ProcInv
  import opened ProcRuns
  import opened TaskQueues
  import opened RingBuffer

  /** How a kernel routine ends; Dangling is a use of a file that was released. */
  datatype Fate = Done | Panicked | Dangling

  ghost predicate Matches(o: Outcome, fate: Fate, s: State, r: Regs) {
    match o
    case Next(s', r') => fate == Done && s == s' && r == r'
    case Panic => fate == Panicked
    case Undefined => fate == Dangling
  }

  ghost function ReparentedBelow(procs: Procs, p: nat, n: nat): Procs {
    map c | c in procs :: if procs[c].ppid == p && c < n then procs[c].(ppid := 1) else procs[c]
  }

  /** The descriptor table with the first n entries closed. */
  ghost function Emptied(fds: seq<nat>, n: nat): seq<nat>
    requires n <= |fds|
  {
    seq(n, _ => 0) + fds[n..]
  }

  /** What a kernel entry puts into the caller's buffer for read. */
  ghost function ReadData(s: State, e: Event): seq<byte>
    requires s.curr in s.procs
  {
    if e.Syscall? && e.r.rax == 0 then Given(s, e.r) else []
  }

  /** The queues after the first k waiters of q have become runnable. */
  ghost function MovedFirst(lists: Lists, q: QueueId, k: nat): Lists
    requires q in lists && Runnable in lists && k <= |lists[q]|
  {
    lists[Runnable := lists[Runnable] + lists[q][..k]][q := lists[q][k..]]
  }

  lemma MoveNothing(procs: Procs, lists: Lists, q: QueueId)
    requires q in lists && Runnable in lists && q != Runnable
    ensures lists == MovedFirst(lists, q, 0) && procs == Readied(procs, lists[q][..0]) && lists[q][0..] == lists[q]
  {
    assert lists[Runnable] + lists[q][..0] == lists[Runnable] && lists[q][0..] == lists[q];
  }

  lemma MoveNext(procs: Procs, lists: Lists, q: QueueId, k: nat)
    requires q in lists && Runnable in lists && q != Runnable && k < |lists[q]|
    ensures var moved, p := MovedFirst(lists, q, k), lists[q][k];
            && Runnable in moved && q in moved && moved[q] == lists[q][k..] && moved[q] != [] && moved[q][0] == p
            && moved[q][1..] == lists[q][k + 1..]
            && moved[q := moved[q][1..]][Runnable := moved[Runnable] + [p]] == MovedFirst(lists, q, k + 1)
            && (p in procs ==>
                  && p in Readied(procs, lists[q][..k]) && Readied(procs, lists[q][..k]).Keys == procs.Keys
                  && Readied(procs, lists[q][..k])[p := Readied(procs, lists[q][..k])[p].(state := Runs)] ==
                     Readied(procs, lists[q][..k + 1]))
            && Readied(procs, lists[q][..k]).Keys == procs.Keys
  {
    var moved, p := MovedFirst(lists, q, k), lists[q][k];
    assert lists[q][..k + 1] == lists[q][..k] + [p] && lists[q][k..][1..] == lists[q][k + 1..];
    assert (lists[Runnable] + lists[q][..k]) + [p] == lists[Runnable] + lists[q][..k + 1];
  }

  class ProcessManager {
    const ring: Ring
    var procs: Procs
    var next: Nexts
    var queues: map<QueueId, Ends>
    var curr: nat
    var idle: bool
    var files: Files
    /** The processes in each queue. */
    ghost var lists: Lists

    ghost predicate Linked()
      reads this
    {
      Links(next, queues, lists) && next.Keys == procs.Keys
    }

    ghost predicate Valid()
      reads this, ring, ring.buffer
    {
      Linked() && ring.Valid() && ring.buffer.Length == RING_CAPACITY + 1
    }

    ghost function View(): State
      reads this, ring
    {
      State(procs, lists, curr, idle, ring.contents, files)
    }

    constructor (r: Regs, tty: nat, image: nat, file: File)
      requires tty != 0 && image != 0 && tty != image
      ensures Valid() && View() == Boot(tty, image, file, r) && Inv(View()) && fresh(ring) && fresh(ring.buffer)
    {
      ring := new Ring(RING_CAPACITY + 1);
      procs := map[1 := Proc(0, Runs, false, 0, r, [tty, tty, tty] + seq(MAX_FDS - 3, _ => 0))];
      next := map[1 := 0];
      queues := map[Runnable := Ends(0, 0), Keys := Ends(0, 0), WaitOf(1) := Ends(0, 0)];
      curr, idle := 1, false;
      files := map[tty := Opened(DEVICE_SIZE, Tty), image := Opened(file.size, file.backing)];
      lists := map[Runnable := [], Keys := [], WaitOf(1) := []];
      new;
      hide Inv, Links;
      BootInv(tty, image, file, r);
      BootLinks();
    }

    /** task_enqueue */
    method TaskEnqueue(q: QueueId, p: nat)
      requires Linked() && q in lists && p in procs && p != 0 && InNoQueue(lists, p)
      modifies `next, `queues, `lists
      ensures Linked() && lists == old(lists)[q := old(lists)[q] + [p]]
    {
      EnqueuedLinks(next, queues, lists, q, p);
      LastIn(next, queues[q], lists[q]);
      next := next[p := 0];
      if queues[q].rear == 0 {
        queues := queues[q := Ends(p, p)];
      } else {
        next := next[queues[q].rear := p];
        queues := queues[q := queues[q].(rear := p)];
      }
      lists := lists[q := lists[q] + [p]];
    }

    /** task_dequeue */
    method TaskDequeue(q: QueueId) returns (p: nat)
      requires Linked() && q in lists && lists[q] != []
      modifies `next, `queues, `lists
      ensures Linked() && p == old(lists)[q][0] && lists == old(lists)[q := old(lists)[q][1..]]
      ensures InNoQueue(lists, p) && p in procs && p != 0
    {
      DequeuedLinks(next, queues, lists, q);
      LastIn(next, queues[q], lists[q]);
      MembersIn(next, queues[q], lists[q]);
      p := queues[q].head;
      if queues[q].head == queues[q].rear {
        queues := queues[q := queues[q].(rear := 0)];
      }
      queues := queues[q := queues[q].(head := next[queues[q].head])];
      next := next[p := 0];
      lists := lists[q := lists[q][1..]];
    }

    /** pm_waitqueue_enqueue */
    method WaitqueueEnqueue(q: QueueId)
      requires Linked() && q in lists && curr in procs && curr != 0 && InNoQueue(lists, curr)
      modifies `procs, `next, `queues, `lists
      ensures Linked() && View() == Blocked(old(View()), q)
    {
      procs := procs[curr := procs[curr].(state := Waits)];
      TaskEnqueue(q, curr);
    }

    /** pm_waitqueue_dequeue_all */
    method WaitqueueDequeueAll(q: QueueId)
      requires Linked() && q in lists && Runnable in lists && q != Runnable
      modifies `procs, `next, `queues, `lists
      ensures Linked() && View() == WokenAll(old(View()), q)
    {
      hide Links, Readied;
      ghost var procs0, lists0, k := procs, lists, 0;
      ghost var waiting := lists[q];
      MoveNothing(procs0, lists0, q);
      QueueEmpty(next, queues, lists, q);
      while queues[q].head != 0
        invariant Linked() && k <= |waiting| && q in lists && q in queues && lists[q] == waiting[k..]
        invariant lists == MovedFirst(lists0, q, k) && procs == Readied(procs0, waiting[..k])
        invariant queues[q].head == 0 <==> k == |waiting|
        decreases |waiting| - k
      {
        MoveNext(procs0, lists0, q, k);
        var task := TaskDequeue(q);
        procs := procs[task := procs[task].(state := Runs)];
        TaskEnqueue(Runnable, task);
        k := k + 1;
        QueueEmpty(next, queues, lists, q);
      }
      assert waiting[..k] == waiting && waiting[k..] == [];
    }

    /** pm_load_next_ready_process, one look at the queue. */
    method LoadNextReady(r: Regs) returns (regs: Regs)
      requires Linked() && Runnable in lists
      modifies `next, `queues, `lists, `curr, `idle
      ensures Linked() && Matches(LoadNext(old(View()), r), Done, View(), regs)
    {
      LastIn(next, queues[Runnable], lists[Runnable]);
      if queues[Runnable].head == 0 {
        idle := true;
        return r;
      }
      idle := false;
      curr := TaskDequeue(Runnable);
      return procs[curr].saved;
    }

    // ---- Files.

    /** vfs_close */
    method VfsClose(f: nat) returns (ok: bool)
      modifies `files
      ensures ok == Closed(old(files), f).Some? && (ok ==> files == Closed(old(files), f).value)
    {
      if f !in files {
        return false;
      }
      var file := files[f];
      if file.refs > 0 {
        file := file.(refs := file.refs - 1);
      }
      files := files[f := file];
      if file.refs == 0 {
        files := files - {f};
      }
      return true;
    }

    /** file_ref_count++ */
    method Share(f: nat) returns (ok: bool)
      modifies `files
      ensures ok == Shared(old(files), f).Some? && (ok ==> files == Shared(old(files), f).value)
    {
      if f !in files {
        return false;
      }
      files := files[f := files[f].(refs := files[f].refs + 1)];
      return true;
    }

    method SetFd(i: nat, f: nat)
      requires curr in procs && i < |procs[curr].fds|
      modifies `procs
      ensures View() == WithFd(old(View()), i, f) && procs.Keys == old(procs).Keys
    {
      procs := procs[curr := procs[curr].(fds := procs[curr].fds[i := f])];
    }

    /** The search for a free descriptor in open and dup. */
    method FreeDescriptor() returns (found: bool, i: nat)
      requires curr in procs
      ensures found == FirstNull(procs[curr].fds, 0).Some? && (found ==> i == FirstNull(procs[curr].fds, 0).value)
      ensures found ==> i < |procs[curr].fds|
    {
      i := 0;
      while i < |procs[curr].fds|
        invariant i <= |procs[curr].fds| && FirstNull(procs[curr].fds, 0) == FirstNull(procs[curr].fds, i)
      {
        if procs[curr].fds[i] == 0 {
          return true, i;
        }
        i := i + 1;
      }
      return false, i;
    }

    // ---- Processes.

    /** generate_pid */
    method GeneratePid() returns (found: bool, pid: nat)
      ensures found == FreePid(procs, 1).Some? && (found ==> pid == FreePid(procs, 1).value)
    {
      pid := 1;
      while pid < MAX_PIDS
        invariant 1 <= pid <= MAX_PIDS && FreePid(procs, 1) == FreePid(procs, pid)
      {
        if pid !in procs {
          return true, pid;
        }
        pid := pid + 1;
      }
      return false, pid;
    }

    /** The loop of pm_fork over the parent's descriptors. */
    method ShareAll(fds: seq<nat>) returns (ok: bool)
      modifies `files
      ensures ok == SharedAll(old(files), fds, |fds|).Some? && (ok ==> files == SharedAll(old(files), fds, |fds|).value)
    {
      var i := 0;
      while i < |fds|
        invariant i <= |fds| && SharedAll(old(files), fds, i) == Some(files)
      {
        if fds[i] != 0 {
          var shared := Share(fds[i]);
          if !shared {
            NeverShared(old(files), fds, i + 1, |fds|);
            return false;
          }
        }
        i := i + 1;
      }
      return true;
    }

    /** The new process control block and its wait queue. */
    method AddProcess(c: nat, proc: Proc)
      requires Linked() && c !in procs && WaitOf(c) !in lists && InNoQueue(lists, c)
      modifies `procs, `next, `queues, `lists
      ensures Linked() && procs == old(procs)[c := proc] && lists == old(lists)[WaitOf(c) := []] && InNoQueue(lists, c)
    {
      hide Links;
      AddLinks(next, queues, lists, c);
      procs := procs[c := proc];
      next, queues, lists := next[c := 0], queues[WaitOf(c) := Ends(0, 0)], lists[WaitOf(c) := []];
    }

    /** pm_fork, as called by its handler. */
    method PmFork(r: Regs) returns (fate: Fate, regs: Regs)
      requires Linked() && Inv(View()) && !idle
      modifies `procs, `next, `queues, `lists, `files
      ensures fate == Done ==> Linked()
      ensures Matches(Forked(old(View()), r), fate, View(), regs)
    {
      hide Inv, Links, FreePid, SharedAll;
      regs := r;
      ghost var s0 := View();
      Basics(s0);
      FreePidFacts(procs);
      var found, c := GeneratePid();
      if !found {
        return Panicked, r;
      }
      var me := procs[curr];
      var ok := ShareAll(me.fds);
      if !ok {
        return Dangling, r;
      }
      NewInNoQueue(s0, c);
      AddProcess(c, Proc(curr, Runs, false, 0, r.(rax := 0), me.fds));
      TaskEnqueue(Runnable, c);
      return Done, r.(rax := c);
    }

    /** The loop of pm_exit over the descriptors. */
    method CloseAll() returns (ok: bool)
      requires curr in procs && |procs[curr].fds| == MAX_FDS
      modifies `procs, `files
      ensures ok == ClosedAll(old(files), old(procs)[curr].fds, MAX_FDS).Some?
      ensures ok ==> files == ClosedAll(old(files), old(procs)[curr].fds, MAX_FDS).value
      ensures ok ==> procs == old(procs)[curr := old(procs)[curr].(fds := NoFiles())]
    {
      hide Emptied, ClosedAll;
      ghost var fds := procs[curr].fds;
      NothingEmptied(old(files), fds);
      for i := 0 to MAX_FDS
        invariant ClosedAll(old(files), fds, i) == Some(files)
        invariant procs == old(procs)[curr := old(procs)[curr].(fds := Emptied(fds, i))]
      {
        EmptiedNext(old(files), fds, i);
        var f := procs[curr].fds[i];
        if f != 0 {
          var closed := VfsClose(f);
          if !closed {
            NeverClosed(old(files), fds, i + 1, MAX_FDS);
            return false;
          }
          procs := procs[curr := procs[curr].(fds := procs[curr].fds[i := 0])];
        }
      }
      AllEmptied(fds);
      return true;
    }

    /** The loop of pm_exit over the process table. */
    method Reparent()
      requires forall c :: c in procs ==> c < MAX_PIDS
      modifies `procs
      ensures procs == Reparented(old(procs), curr)
    {
      assert procs == ReparentedBelow(procs, curr, 0);
      for i := 0 to MAX_PIDS
        invariant procs == ReparentedBelow(old(procs), curr, i)
      {
        if i in procs && procs[i].ppid == curr {
          procs := procs[i := procs[i].(ppid := 1)];
        }
        ReparentedNext(old(procs), curr, i);
      }
    }

    /** pm_exit */
    method PmExit(status: int, r: Regs) returns (fate: Fate)
      requires Linked() && Inv(View()) && !idle
      modifies `procs, `next, `queues, `lists, `files
      ensures fate == Done ==> Linked()
      ensures Matches(Exited(old(View()), status, r), fate, View(), r)
    {
      hide Inv, Links, ClosedAll, Reparented, WokenAll;
      ghost var procs0 := procs;
      Basics(View());
      procs := procs[curr := procs[curr].(status := status, state := Zombie)];
      var ok := CloseAll();
      if !ok {
        return Dangling;
      }
      assert procs == procs0[curr := procs0[curr].(state := Zombie, status := status, fds := NoFiles())];
      ghost var procs1 := procs;
      Reparent();
      ReparentedKeys(procs1, curr);
      if procs[curr].ppid !in procs {
        return Panicked;
      }
      WaitqueueDequeueAll(WaitOf(procs[curr].ppid));
      return Done;
    }

    /** pm_wait, as called by its handler. */
    method PmWait(r: Regs) returns (regs: Regs)
      requires Linked() && Inv(View()) && !idle
      modifies `procs, `next, `queues, `lists
      ensures Linked() && Matches(Waited(old(View()), r), Done, View(), regs)
    {
      hide Inv, Links, FirstZombie, HasChild, Blocked;
      ghost var s0 := View();
      Basics(s0);
      NoChildYet(procs, curr);
      var hasChildren := false;
      for i := 0 to MAX_PIDS
        invariant View() == s0 && Linked()
        invariant FirstZombie(procs, curr, 0) == FirstZombie(procs, curr, i)
        invariant hasChildren == HasChild(procs, curr, i)
      {
        HasChildNext(procs, curr, i);
        ScanNext(procs, curr, i);
        if i in procs && procs[i].ppid == curr {
          if procs[i].state == Zombie {
            DropLinks(next, queues, lists, i);
            ZombieInNoQueue(s0, i);
            procs, next := procs - {i}, next - {i};
            queues, lists := queues - {WaitOf(i)}, lists - {WaitOf(i)};
            return r.(rax := i);
          }
          hasChildren := true;
        }
      }
      ScanEnds(procs, curr);
      if !hasChildren {
        return r.(rax := MINUS_ONE);
      }
      RunningInNoQueue(s0);
      WaitqueueEnqueue(WaitOf(curr));
      return r.(rax := 0);
    }

    /** syscall_kill_handler and pm_kill */
    method KillHandler(r: Regs) returns (regs: Regs)
      requires Linked()
      modifies `procs
      ensures Linked() && Matches(Killed(old(View()), r), Done, View(), regs)
    {
      if r.rsi != 9 {
        return r.(rax := MINUS_ONE);
      }
      var pid := IntArg(r.rdi);
      if pid < 0 || pid >= MAX_PIDS || pid !in procs {
        return r.(rax := MINUS_ONE);
      }
      procs := procs[pid := procs[pid].(kill := true)];
      return r.(rax := 0);
    }

    // ---- Descriptor calls.

    /** ps2_read: delivers the oldest keys, or blocks when it is asked for some and there are none. */
    method Ps2Read(size: u64) returns (n: u64, data: seq<byte>)
      requires Valid() && Keys in lists && curr in procs && curr != 0 && InNoQueue(lists, curr)
      modifies `procs, `next, `queues, `lists, ring
      ensures Valid()
      ensures size > 0 && old(ring.contents) == [] ==> n == 0 && data == [] && View() == Blocked(old(View()), Keys)
      ensures size == 0 || old(ring.contents) != [] ==>
                && n == (if size <= |old(ring.contents)| then size else |old(ring.contents)|)
                && data == old(ring.contents)[..n] && View() == old(View()).(keys := old(ring.contents)[n..])
      ensures old(ring.contents) == data + ring.contents && |data| == n
    {
      hide Links, Blocked;
      ghost var keys := ring.contents;
      n, data := 0, [];
      while n < size
        invariant n <= size && n <= |keys| && data == keys[..n] && Valid() && View() == old(View()).(keys := keys[n..])
        invariant unchanged(`procs, `next, `queues, `lists)
        decreases size - n
      {
        var ok, c := ring.Pop();
        if !ok {
          if n == 0 {
            WaitqueueEnqueue(Keys);
          }
          return;
        }
        data := data + [c];
        n := n + 1;
      }
    }

    /** syscall_read_handler and vfs_read; `data` is what reaches the caller's buffer. */
    method ReadHandler(r: Regs) returns (fate: Fate, regs: Regs, data: seq<byte>)
      requires Valid() && Inv(View()) && !idle
      modifies `procs, `next, `queues, `lists, `files, ring
      ensures fate == Done ==> Valid()
      ensures Matches(ReadCall(old(View()), r), fate, View(), regs)
      ensures curr == old(curr) && data == old(Given(View(), r))
    {
      hide Inv, Links, Clip, Blocked;
      data := [];
      Basics(View());
      RunningInNoQueue(View());
      var fd := Signed(r.rdi);
      if !FdValid(fd, procs[curr].fds) {
        return Done, r.(rax := MINUS_ONE), [];
      }
      var f := procs[curr].fds[fd];
      if f !in files {
        return Dangling, r, [];
      }
      var file := files[f];
      if file.position >= file.size {
        return Done, r.(rax := 0), [];
      }
      if WriteOnly(file.backing) {
        return Done, r.(rax := MINUS_ONE), [];
      }
      var count := Clip(file, r.rdx);
      if FromKeyboard(file.backing) {
        count, data := Ps2Read(count);
      } else if file.position + count <= |file.backing.data| {
        data := file.backing.data[file.position..file.position + count];
      }
      assert f in files && files[f] == file;
      if Signed(count) > 0 {
        files := files[f := file.(position := Add64(file.position, count))];
      } else {
        assert files == files[f := file];
      }
      return Done, r.(rax := count), data;
    }

    /** syscall_write_handler and vfs_write */
    method WriteHandler(r: Regs) returns (fate: Fate, regs: Regs)
      requires Linked() && curr in procs
      modifies `files
      ensures fate == Done ==> Linked()
      ensures Matches(WriteCall(old(View()), r), fate, View(), regs)
    {
      hide Links;
      var fd := Signed(r.rdi);
      if !FdValid(fd, procs[curr].fds) {
        return Done, r.(rax := MINUS_ONE);
      }
      var f := procs[curr].fds[fd];
      if f !in files {
        return Dangling, r;
      }
      var file := files[f];
      if file.backing.Regular? || file.backing == Keyboard {
        return Panicked, r;
      }
      var written := Written(file.backing, r.rdx);
      if Signed(written) > 0 {
        file := file.(position := Add64(file.position, written));
      }
      if file.position > file.size {
        file := file.(size := file.position);
      }
      files := files[f := file];
      return Done, r.(rax := written);
    }

    /** syscall_open_handler; the file system's answer and the address of the new file come from outside. */
    method OpenHandler(r: Regs, found: Option<File>, id: nat) returns (fate: Fate, regs: Regs)
      requires Linked() && curr in procs && FreshFile(View(), found, id)
      modifies `procs, `files
      ensures fate == Done ==> Linked()
      ensures Matches(OpenCall(old(View()), r, found, id), fate, View(), regs)
    {
      hide Links, FirstNull;
      FirstNullFacts(procs[curr].fds);
      if found.None? {
        return Done, r.(rax := MINUS_ONE);
      }
      files := files[id := Opened(found.value.size, found.value.backing)];
      var free, i := FreeDescriptor();
      if free {
        SetFd(i, id);
        return Done, r.(rax := i % TWO64);
      }
      return Done, r.(rax := MINUS_ONE);
    }

    /** syscall_close_handler */
    method CloseHandler(r: Regs) returns (fate: Fate, regs: Regs)
      requires Linked() && curr in procs
      modifies `procs, `files
      ensures fate == Done ==> Linked()
      ensures Matches(CloseCall(old(View()), r), fate, View(), regs)
    {
      hide Links, Closed;
      var fd := Signed(r.rdi);
      if !FdValid(fd, procs[curr].fds) {
        return Done, r.(rax := MINUS_ONE);
      }
      var ok := VfsClose(procs[curr].fds[fd]);
      if !ok {
        return Dangling, r;
      }
      SetFd(fd, 0);
      return Done, r.(rax := 0);
    }

    /** syscall_dup_handler */
    method DupHandler(r: Regs) returns (fate: Fate, regs: Regs)
      requires Linked() && curr in procs
      modifies `procs, `files
      ensures fate == Done ==> Linked()
      ensures Matches(DupCall(old(View()), r), fate, View(), regs)
    {
      hide Links, Shared, FirstNull;
      FirstNullFacts(procs[curr].fds);
      var fd := Signed(r.rdi);
      if !FdValid(fd, procs[curr].fds) {
        return Done, r.(rax := MINUS_ONE);
      }
      var file := procs[curr].fds[fd];
      var free, i := FreeDescriptor();
      if !free {
        return Done, r.(rax := MINUS_ONE);
      }
      var ok := Share(file);
      if !ok {
        return Dangling, r;
      }
      SetFd(i, file);
      return Done, r.(rax := i % TWO64);
    }

    /** syscall_dup2_handler */
    method Dup2Handler(r: Regs) returns (fate: Fate, regs: Regs)
      requires Linked() && curr in procs
      modifies `procs, `files
      ensures fate == Done ==> Linked()
      ensures Matches(Dup2Call(old(View()), r), fate, View(), regs)
    {
      hide Links, Shared, Closed;
      var fd, target := Signed(r.rdi), Signed(r.rsi);
      if !FdValid(fd, procs[curr].fds) || target < 0 || target >= |procs[curr].fds| {
        return Done, r.(rax := MINUS_ONE);
      }
      if fd == target {
        return Done, r.(rax := r.rsi);
      }
      if FdValid(target, procs[curr].fds) {
        var closed := VfsClose(procs[curr].fds[target]);
        if !closed {
          return Dangling, r;
        }
      }
      var file := procs[curr].fds[fd];
      var shared := Share(file);
      if !shared {
        return Dangling, r;
      }
      SetFd(target, file);
      return Done, r.(rax := r.rsi);
    }

    /** syscall_lseek_handler */
    method SeekHandler(r: Regs) returns (fate: Fate, regs: Regs)
      requires Linked() && curr in procs
      modifies `files
      ensures fate == Done ==> Linked()
      ensures Matches(SeekCall(old(View()), r), fate, View(), regs)
    {
      hide Links;
      var fd := Signed(r.rdi);
      if !FdValid(fd, procs[curr].fds) {
        return Done, r.(rax := MINUS_ONE);
      }
      var f := procs[curr].fds[fd];
      if f !in files {
        return Dangling, r;
      }
      var number := r.rdx % TWO32;
      if number > 2 {
        return Done, r.(rax := MINUS_ONE);
      }
      var whence := if number == 0 then Set else if number == 1 then Cur else End;
      var (file, pos) := Seek(files[f], Signed(r.rsi), whence);
      files := files[f := file];
      return Done, r.(rax := if pos < 0 then MINUS_ONE else pos);
    }

    // ---- Kernel entries.

    /** The switch of syscall_kernel_handler. */
    method HandleSyscall(r: Regs, e: Event) returns (fate: Fate, regs: Regs, data: seq<byte>)
      requires Valid() && Inv(View()) && !idle && e.Syscall? && FreshFile(View(), e.found, e.id)
      modifies `procs, `next, `queues, `lists, `files, ring
      ensures fate == Done ==> Valid()
      ensures Matches(Handled(old(View()), r, e), fate, View(), regs)
      ensures data == if r.rax == 0 then old(Given(View(), r)) else []
    {
      hide Inv, Links, Exited, Forked, Waited, Killed, ReadCall, WriteCall, OpenCall, CloseCall, DupCall, Dup2Call, SeekCall, IntArg,
           Given;
      Basics(View());
      fate, regs, data := Done, r, [];
      match r.rax {
        case 0 => fate, regs, data := ReadHandler(r);
        case 1 => fate, regs := WriteHandler(r);
        case 2 => fate, regs := OpenHandler(r, e.found, e.id);
        case 3 => fate, regs := CloseHandler(r);
        case 8 => fate, regs := SeekHandler(r);
        case 32 => fate, regs := DupHandler(r);
        case 33 => fate, regs := Dup2Handler(r);
        case 39 => regs := r.(rax := curr % TWO64);
        case 57 => fate, regs := PmFork(r);
        case 59 =>
          // What pm_execve does to the registers; its work on the address space is in Kernel.System.Execve.
          regs := if e.entry.Some? then Started(r, e.entry.value) else r.(rax := MINUS_ONE);
        case 60 => fate := PmExit(IntArg(r.rdi), r);
        case 61 => regs := PmWait(r);
        case 62 => regs := KillHandler(r);
        case 110 => regs := r.(rax := procs[curr].ppid % TWO64);
        case _ =>
          if Foreign(r.rax) {
            regs := r.(rax := e.ret);
          } else {
            fate := Panicked;
          }
      }
    }

    /** syscall_kernel_handler */
    method SyscallHandler(e: Event) returns (fate: Fate, regs: Regs, data: seq<byte>)
      requires Valid() && Inv(View()) && !idle && e.Syscall? && FreshFile(View(), e.found, e.id)
      modifies `procs, `next, `queues, `lists, `files, `curr, `idle, ring
      ensures fate == Done ==> Valid()
      ensures Matches(SyscallStep(old(View()), e), fate, View(), regs)
      ensures data == old(ReadData(View(), e))
    {
      hide Inv, Links, Handled, LoadNext;
      ghost var s0 := View();
      Basics(s0);
      var r := e.r.(cs := USER_CS, ss := USER_SS);
      var pcb := curr;
      fate, regs, data := HandleSyscall(r, e);
      if fate != Done {
        return;
      }
      HandledInv(s0, r, e);
      if procs[pcb].state != Waits && procs[pcb].state != Zombie {
        return;
      }
      LeftQueues(View());
      regs := regs.(rax := e.r.rax, rip := Sub64(regs.rip, 2));
      procs := procs[pcb := procs[pcb].(saved := regs)];
      regs := LoadNextReady(regs);
    }

    /** pm_scheduler_context_switch, the timer's handler. */
    method ContextSwitch(r: Regs) returns (fate: Fate, regs: Regs)
      requires Valid() && Inv(View())
      modifies `procs, `next, `queues, `lists, `files, `curr, `idle
      ensures fate == Done ==> Valid()
      ensures Matches(Step(old(View()), Tick(r)), fate, View(), regs)
    {
      hide Inv, Links, Exited, LoadNext;
      regs := r;
      Basics(View());
      if idle {
        return Done, r;
      }
      if r.cs % 4 == 0 {
        return Panicked, r;
      }
      QueueEmpty(next, queues, lists, Runnable);
      if queues[Runnable].head == 0 && !procs[curr].kill {
        return Done, r;
      }
      if procs[curr].kill {
        ghost var s0 := View();
        fate := PmExit(KILL_STATUS, r);
        if fate != Done {
          return;
        }
        ExitedInv(s0, KILL_STATUS, r);
        LeftQueues(View());
      } else {
        RunningInNoQueue(View());
        procs := procs[curr := procs[curr].(saved := r)];
        TaskEnqueue(Runnable, curr);
      }
      regs := LoadNextReady(r);
      return Done, regs;
    }

    /** process_exception_handler */
    method ExceptionHandler(r: Regs) returns (fate: Fate, regs: Regs)
      requires Valid() && Inv(View()) && !idle
      modifies `procs, `next, `queues, `lists, `files, `curr, `idle
      ensures fate == Done ==> Valid()
      ensures Matches(Step(old(View()), Fault(r)), fate, View(), regs)
    {
      hide Inv, Links, Switched;
      if r.cs % 4 == 0 {
        return Panicked, r;
      }
      Basics(View());
      CondemnedInv(View());
      procs := procs[curr := procs[curr].(kill := true)];
      fate, regs := ContextSwitch(r);
    }

    /** keyboard_interrupt_handler */
    method KeyboardInterrupt(scan: nat)
      requires Valid() && Inv(View())
      modifies `procs, `next, `queues, `lists, ring, ring.buffer
      ensures Valid() && View() == KeyStep(old(View()), scan)
    {
      hide Inv, Links, WokenAll;
      Basics(View());
      if scan >= |SCAN_CODES| {
        return;
      }
      var pushed := ring.Push(SCAN_CODES[scan]);
      WaitqueueDequeueAll(Keys);
    }

    /** One kernel entry: it does what the step says, and keeps the invariant. `data` is what read delivers. */
    method Perform(e: Event) returns (fate: Fate, regs: Regs, data: seq<byte>)
      requires Valid() && Inv(View()) && Enabled(View(), e) && (e.Syscall? ==> FreshFile(View(), e.found, e.id))
      modifies this, ring, ring.buffer
      ensures fate == Done ==> Valid() && Inv(View())
      ensures Matches(Step(old(View()), e), fate, View(), regs)
      ensures data == old(ReadData(View(), e))
    {
      hide Inv, Links, Switched, SyscallStep, KeyStep, LoadNext, Given;
      data := [];
      ghost var s0 := View();
      Basics(s0);
      match e {
        case Tick(r) => fate, regs := ContextSwitch(r);
        case Fault(r) => fate, regs := ExceptionHandler(r);
        case Key(scan, r) =>
          KeyboardInterrupt(scan);
          fate, regs := Done, r;
        case Wake =>
          fate := Done;
          regs := LoadNextReady(procs[curr].saved);
        case Syscall(_, _, _, _, _) => fate, regs, data := SyscallHandler(e);
      }
      if fate == Done {
        StepInv(s0, e);
      }
    }
  }

  lemma {:induction false} NeverShared(files: Files, fds: seq<nat>, i: nat, n: nat)
    requires i <= n <= |fds| && SharedAll(files, fds, i).None?
    ensures SharedAll(files, fds, n).None?
  {
    if i < n {
      NeverShared(files, fds, i, n - 1);
    }
  }

  lemma {:induction false} NeverClosed(files: Files, fds: seq<nat>, i: nat, n: nat)
    requires i <= n <= |fds| && ClosedAll(files, fds, i).None?
    ensures ClosedAll(files, fds, n).None?
  {
    if i < n {
      NeverClosed(files, fds, i, n - 1);
    }
  }

  lemma ReparentedNext(procs: Procs, p: nat, i: nat)
    ensures ReparentedBelow(procs, p, i + 1) ==
            if i in procs && procs[i].ppid == p then ReparentedBelow(procs, p, i)[i := procs[i].(ppid := 1)]
            else ReparentedBelow(procs, p, i)
  {
  }

  lemma BootLinks()
    ensures Links(map[1 := 0], map[Runnable := Ends(0, 0), Keys := Ends(0, 0), WaitOf(1) := Ends(0, 0)],
                  map[Runnable := [], Keys := [], WaitOf(1) := []])
  {
  }

  lemma NothingEmptied(files: Files, fds: seq<nat>)
    ensures Emptied(fds, 0) == fds && ClosedAll(files, fds, 0) == Some(files)
  {
    assert Emptied(fds, 0) == fds;
  }

  /** One more descriptor is closed. */
  lemma EmptiedNext(files: Files, fds: seq<nat>, i: nat)
    requires i < |fds|
    ensures |Emptied(fds, i)| == |fds| && Emptied(fds, i)[i] == fds[i] && Emptied(fds, i)[i := 0] == Emptied(fds, i + 1)
    ensures fds[i] == 0 ==> Emptied(fds, i) == Emptied(fds, i + 1)
    ensures ClosedAll(files, fds, i).Some? ==>
              ClosedAll(files, fds, i + 1) ==
              if fds[i] == 0 then ClosedAll(files, fds, i) else Closed(ClosedAll(files, fds, i).value, fds[i])
  {
    assert Emptied(fds, i)[i := 0] == Emptied(fds, i + 1);
    assert fds[i] == 0 ==> Emptied(fds, i)[i := 0] == Emptied(fds, i);
  }

  lemma AllEmptied(fds: seq<nat>)
    requires |fds| == MAX_FDS
    ensures Emptied(fds, MAX_FDS) == NoFiles()
  {
    assert fds[MAX_FDS..] == [];
  }

  lemma FirstNullFacts(fds: seq<nat>)
    ensures FirstNull(fds, 0).Some? ==> FirstNull(fds, 0).value < |fds|
  {
  }

  lemma ReparentedKeys(procs: Procs, p: nat)
    ensures Reparented(procs, p).Keys == procs.Keys
  {
  }

  lemma FreePidFacts(procs: Procs)
    ensures FreePid(procs, 1).Some? ==> 1 <= FreePid(procs, 1).value < MAX_PIDS && FreePid(procs, 1).value !in procs
  {
  }

  lemma NoChildYet(procs: Procs, p: nat)
    ensures !HasChild(procs, p, 0)
  {
  }

  lemma ScanNext(procs: Procs, p: nat, i: nat)
    requires i < MAX_PIDS
    ensures FirstZombie(procs, p, i) == if ZombieChild(procs, i, p) then Some(i) else FirstZombie(procs, p, i + 1)
  {
  }

  lemma ScanEnds(procs: Procs, p: nat)
    ensures FirstZombie(procs, p, MAX_PIDS) == None
  {
  }

  lemma HasChildNext(procs: Procs, p: nat, i: nat)
    ensures HasChild(procs, p, i + 1) <==> HasChild(procs, p, i) || LiveChild(procs, i, p)
  {
  }

  /** A new, empty wait queue for a new process. */
  lemma AddLinks(next: Nexts, queues: map<QueueId, Ends>, lists: Lists, c: nat)
    requires Links(next, queues, lists) && c !in next && WaitOf(c) !in lists
    ensures Links(next[c := 0], queues[WaitOf(c) := Ends(0, 0)], lists[WaitOf(c) := []])
  {
    forall q | q in lists ensures Chain(next[c := 0], queues[q], lists[q]) {
      MembersIn(next, queues[q], lists[q]);
      ChainFrame(next, next[c := 0], queues[q], lists[q]);
    }
    var lists' := lists[WaitOf(c) := []];
    forall q, k | q in lists' && k in lists' && q != k ensures Apart(lists'[q], lists'[k]) {
      assert q in lists && k in lists ==> Apart(lists[q], lists[k]);
    }
  }

  /** A process in no queue goes, with its empty wait queue. */
  lemma DropLinks(next: Nexts, queues: map<QueueId, Ends>, lists: Lists, z: nat)
    requires Links(next, queues, lists)
    ensures InNoQueue(lists, z) ==> Links(next - {z}, queues - {WaitOf(z)}, lists - {WaitOf(z)})
  {
    if InNoQueue(lists, z) {
      forall q | q in lists ensures Chain(next - {z}, queues[q], lists[q]) {
        MembersIn(next, queues[q], lists[q]);
        ChainFrame(next, next - {z}, queues[q], lists[q]);
      }
    }
  }

  /** What the routines need of the invariant. */
  lemma Basics(s: State)
    requires Inv(s)
    ensures s.curr in s.procs && s.curr != 0 && Runnable in s.lists && Keys in s.lists && |s.procs[s.curr].fds| == MAX_FDS
    ensures forall p :: p in s.procs ==> p < MAX_PIDS && WaitOf(p) in s.lists && p != 0
    ensures forall p :: WaitOf(p) in s.lists ==> p in s.procs
  {
  }

  /** After a handler took the process off the processor, the run queue and its head are in order. */
  lemma LeftQueues(s: State)
    requires Inv(s.(idle := true))
    ensures Runnable in s.lists
  {
  }

  lemma NewInNoQueue(s: State, c: nat)
    requires Inv(s) && c !in s.procs
    ensures InNoQueue(s.lists, c) && c !in s.lists[Runnable] && WaitOf(c) !in s.lists
  {
    forall q | q in s.lists ensures c !in s.lists[q] {
      if c in s.lists[q] {
        var other := if q == Runnable then Keys else Runnable;
        QueuesDisjoint(s, q, other, c);
      }
    }
  }

  lemma ZombieInNoQueue(s: State, z: nat)
    requires Inv(s) && z in s.procs && s.procs[z].state == Zombie
    ensures InNoQueue(s.lists, z)
  {
    NotWaitingAnywhere(s, z);
  }

  lemma RunningInNoQueue(s: State)
    requires Inv(s) && !s.idle
    ensures InNoQueue(s.lists, s.curr) && s.curr != 0
  {
    NotWaitingAnywhere(s, s.curr);
  }

  /** A process that is neither runnable nor waiting is in no queue. */
  lemma NotWaitingAnywhere(s: State, p: nat)
    requires Inv(s) && p in s.procs && (s.procs[p].state == Zombie || Running(s, p))
    ensures InNoQueue(s.lists, p)
  {
    hide WaitOk, ParentOk, FilesOk, NoDup;
    assert PlaceOk(s, p);
    forall q | q in s.lists ensures p !in s.lists[q] {
      assert q.WaitOf? ==> PlaceOk(s, q.pid);
    }
  }
}
