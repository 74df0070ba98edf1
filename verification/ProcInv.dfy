/** What holds in every reachable state of the process machine. */
module ProcInv {
  import opened Machine
  import opened ProcSpec

  ghost predicate Running(s: State, p: nat) {
    !s.idle && p == s.curr
  }

  /** The table, the queues and the descriptor tables have the right shape. */
  ghost predicate Shape(s: State) {
    && 0 !in s.procs && 1 in s.procs && s.curr in s.procs && |s.keys| <= RING_CAPACITY
    && Runnable in s.lists && Keys in s.lists
    && (forall p :: WaitOf(p) in s.lists <==> p in s.procs)
    && (forall p :: p in s.procs ==> p < MAX_PIDS && |s.procs[p].fds| == MAX_FDS)
  }

  /** Process p is where its state says: running or runnable, in one wait queue, or nowhere. */
  ghost predicate PlaceOk(s: State, p: nat)
    requires p in s.procs
  {
    match s.procs[p].state
    case Runs => (Running(s, p) <==> p !in Queue(s, Runnable)) && p !in Queue(s, Keys) && Queue(s, WaitOf(p)) == []
    case Waits =>
      && !Running(s, p) && p !in Queue(s, Runnable)
      && Queue(s, WaitOf(p)) == (if p in Queue(s, Keys) then [] else [p])
    case Zombie => !Running(s, p) && p !in Queue(s, Runnable) && p !in Queue(s, Keys) && Queue(s, WaitOf(p)) == []
  }

  ghost predicate Placed(s: State) {
    && NoDup(Queue(s, Runnable)) && NoDup(Queue(s, Keys))
    && (forall p :: p in Queue(s, Runnable) ==> p in s.procs) && (forall p :: p in Queue(s, Keys) ==> p in s.procs)
    && forall p {:trigger PlaceOk(s, p)} :: p in s.procs ==> PlaceOk(s, p)
  }

  /** The parent is another process in the table and not a zombie; only init has none. */
  ghost predicate ParentOk(procs: Procs, p: nat)
    requires p in procs
  {
    if p == 1 then procs[p].ppid == 0 && procs[p].state != Zombie
    else procs[p].ppid in procs && procs[p].ppid != p && procs[procs[p].ppid].state != Zombie
  }

  ghost predicate Parents(procs: Procs) {
    forall p {:trigger ParentOk(procs, p)} :: p in procs ==> ParentOk(procs, p)
  }

  /** A process waiting for a child has a living one and, unless it is init, none to reap. */
  ghost predicate WaitOk(s: State, p: nat) {
    Queue(s, WaitOf(p)) != [] ==>
      (exists c :: LiveChild(s.procs, c, p)) && (p != 1 ==> forall c :: !ZombieChild(s.procs, c, p))
  }

  ghost predicate NoLostWakeup(s: State) {
    && (Queue(s, Keys) != [] ==> s.keys == [])
    && forall p {:trigger WaitOk(s, p)} :: p in s.procs ==> WaitOk(s, p)
  }

  /** Zombies hold no files, and a file in memory is referenced. */
  ghost predicate FilesOk(s: State) {
    && (forall p :: p in s.procs && s.procs[p].state == Zombie ==> s.procs[p].fds == NoFiles())
    && (forall f :: f in s.files ==> f != 0 && s.files[f].refs > 0)
  }

  ghost predicate Inv(s: State) {
    Shape(s) && Placed(s) && Parents(s.procs) && NoLostWakeup(s) && FilesOk(s)
  }

  // ---- What the invariant says, in the terms of the scheduler.

  ghost function Occurrences(list: seq<nat>, p: nat): nat {
    multiset(list)[p]
  }

  lemma {:induction false} OccursOnce(list: seq<nat>, p: nat)
    requires NoDup(list)
    ensures Occurrences(list, p) == if p in list then 1 else 0
  {
    if p in list {
      var i :| 0 <= i < |list| && list[i] == p;
      assert list == list[..i] + [p] + list[i + 1..];
      assert p !in list[..i] && p !in list[i + 1..];
    }
  }

  /** Every process is in exactly one place, and its state agrees. */
  lemma ExactlyOnePlace(s: State, p: nat)
    requires Inv(s) && p in s.procs
    ensures (if Running(s, p) then 1 else 0) + Occurrences(Queue(s, Runnable), p) + Occurrences(Queue(s, Keys), p) +
            Occurrences(Queue(s, WaitOf(p)), p) + (if s.procs[p].state == Zombie then 1 else 0) == 1
    ensures forall q :: p in Queue(s, WaitOf(q)) ==> q == p
    ensures s.procs[p].state == Runs <==> Running(s, p) || p in Queue(s, Runnable)
    ensures s.procs[p].state == Waits <==> p in Queue(s, Keys) || p in Queue(s, WaitOf(p))
    ensures s.procs[p].state == Zombie ==> Queue(s, WaitOf(p)) == []
  {
    OccursOnce(Queue(s, Runnable), p);
    OccursOnce(Queue(s, Keys), p);
    assert PlaceOk(s, p);
    assert Occurrences([p], p) == 1;
    forall q | p in Queue(s, WaitOf(q)) ensures q == p {
      assert PlaceOk(s, q);
    }
  }

  /** No two queues share a process, so one `next` link per process is enough. */
  lemma QueuesDisjoint(s: State, q: QueueId, q': QueueId, p: nat)
    requires Inv(s) && q in s.lists && q' in s.lists && q != q' && p in s.lists[q]
    ensures p !in s.lists[q'] && p in s.procs && NoDup(s.lists[q])
    ensures q == Runnable || q == Keys || q == WaitOf(p)
  {
    hide WaitOk, ParentOk;
    forall k | k in s.procs ensures PlaceOk(s, k) {
    }
  }

  // ---- The parts of the invariant that only look at the family tree.

  /** Same processes, same parents, the same of them zombies. */
  ghost predicate SameFamily(procs: Procs, procs': Procs) {
    && procs'.Keys == procs.Keys
    && forall p :: p in procs ==> procs'[p].ppid == procs[p].ppid && (procs'[p].state == Zombie <==> procs[p].state == Zombie)
  }

  lemma FamilyKept(procs: Procs, procs': Procs)
    requires Parents(procs) && SameFamily(procs, procs')
    ensures Parents(procs')
  {
    forall p | p in procs' ensures ParentOk(procs', p) {
      assert ParentOk(procs, p);
    }
  }

  lemma WakeupsKept(s: State, s': State)
    requires NoLostWakeup(s) && SameFamily(s.procs, s'.procs)
    requires forall p :: Queue(s', WaitOf(p)) != [] ==> Queue(s, WaitOf(p)) != []
    requires Queue(s', Keys) != [] ==> s'.keys == []
    ensures NoLostWakeup(s')
  {
    forall p | p in s'.procs ensures WaitOk(s', p) {
      assert WaitOk(s, p);
      if Queue(s', WaitOf(p)) != [] {
        var c :| LiveChild(s.procs, c, p);
        assert LiveChild(s'.procs, c, p);
        forall c | p != 1 && ZombieChild(s'.procs, c, p) ensures false {
          assert ZombieChild(s.procs, c, p);
        }
      }
    }
  }

  // ---- Operations on the queues. Between leaving the current process and loading the next one, nobody runs; the
  // ---- lemmas describe those moments as idle.

  /** Nothing moved. */
  lemma QuietInv(s: State, s': State)
    requires Inv(s) && s'.lists == s.lists && s'.curr == s.curr && s'.idle == s.idle && s'.procs.Keys == s.procs.Keys
    requires forall p :: p in s.procs ==> s'.procs[p].ppid == s.procs[p].ppid && s'.procs[p].state == s.procs[p].state &&
                                          |s'.procs[p].fds| == MAX_FDS
    requires |s'.keys| <= RING_CAPACITY && (Queue(s, Keys) != [] ==> s'.keys == []) && FilesOk(s')
    ensures Inv(s')
  {
    hide WaitOk, ParentOk, FilesOk;
    FamilyKept(s.procs, s'.procs);
    WakeupsKept(s, s');
    forall p | p in s'.procs ensures PlaceOk(s', p) {
      assert PlaceOk(s, p);
    }
  }

  /** Members of a wait queue wait, once, and are not runnable. */
  lemma Waiters(s: State, q: QueueId)
    requires Placed(s) && Shape(s) && q in s.lists && q != Runnable
    ensures NoDup(Queue(s, q))
    ensures forall p :: p in Queue(s, q) ==> p in s.procs && s.procs[p].state == Waits && p !in Queue(s, Runnable)
    ensures forall p :: p in Queue(s, q) && q != Keys ==> q == WaitOf(p) && p !in Queue(s, Keys)
    ensures forall p :: p in Queue(s, q) && q == Keys ==> Queue(s, WaitOf(p)) == []
  {
    if q.WaitOf? {
      assert PlaceOk(s, q.pid);
    }
    forall p | p in Queue(s, q) ensures p in s.procs && PlaceOk(s, p) {
      if q == Keys {
        assert p in Queue(s, Keys);
      }
    }
  }

  lemma NoDupJoin(a: seq<nat>, b: seq<nat>)
    requires NoDup(a) && NoDup(b) && forall x :: x in b ==> x !in a
    ensures NoDup(a + b)
  {
    forall i, j | 0 <= i < j < |a + b| ensures (a + b)[i] != (a + b)[j] {
      if i < |a| <= j {
        assert a[i] in a && b[j - |a|] in b;
      }
    }
  }

  lemma WokenPlaced(s: State, q: QueueId)
    requires Shape(s) && Placed(s) && q in s.lists && q != Runnable
    ensures Shape(WokenAll(s, q)) && Placed(WokenAll(s, q)) && SameFamily(s.procs, WokenAll(s, q).procs)
    ensures forall k :: k != q && k != Runnable ==> Queue(WokenAll(s, q), k) == Queue(s, k)
    ensures Queue(WokenAll(s, q), q) == []
  {
    hide PlaceOk;
    var s' := WokenAll(s, q);
    Waiters(s, q);
    NoDupJoin(Queue(s, Runnable), Queue(s, q));
    forall p | p in s'.procs ensures PlaceOk(s', p) {
      assert PlaceOk(s, p);
      WokenPlace(s, q, p);
    }
  }

  lemma WokenFrame(s: State, q: QueueId)
    ensures var s' := WokenAll(s, q);
            && s'.keys == s.keys && s'.files == s.files && s'.curr == s.curr && s'.idle == s.idle && s'.procs.Keys == s.procs.Keys
            && forall p :: p in s.procs ==>
                 && s'.procs[p].fds == s.procs[p].fds && s'.procs[p].saved == s.procs[p].saved
                 && s'.procs[p].kill == s.procs[p].kill && s'.procs[p].status == s.procs[p].status
                 && (s'.procs[p].state == Zombie ==> s.procs[p].state == Zombie)
  {
  }

  lemma WokenPlace(s: State, q: QueueId, p: nat)
    requires p in s.procs && PlaceOk(s, p) && q in s.lists && q != Runnable
    requires p in Queue(s, q) ==> s.procs[p].state == Waits && (q != Keys ==> q == WaitOf(p))
    ensures p in WokenAll(s, q).procs && PlaceOk(WokenAll(s, q), p)
  {
  }

  /** pm_load_next_ready_process dispatches the head of the queue, with the context saved for it. */
  lemma LoadNextInv(s: State, r: Regs)
    requires Inv(s) && s.idle
    ensures LoadNext(s, r).Next? && Inv(LoadNext(s, r).s)
  {
    hide WaitOk, ParentOk, FilesOk;
    var s', ready := LoadNext(s, r).s, Queue(s, Runnable);
    if ready != [] {
      assert ready[0] in ready;
      forall p | p in s'.procs ensures PlaceOk(s', p) {
        assert PlaceOk(s, p);
      }
      WakeupsKept(s, s');
      FilesKept(s, s');
    }
  }

  /** The current process may block: on the keyboard with no key to read, or waiting for a living child. */
  ghost predicate MayBlock(s: State, q: QueueId) {
    || (q == Keys && s.keys == [])
    || (q == WaitOf(s.curr) && (exists c :: LiveChild(s.procs, c, s.curr)) && forall c :: !ZombieChild(s.procs, c, s.curr))
  }

  lemma BlockedInv(s: State, q: QueueId)
    requires Inv(s) && !s.idle && MayBlock(s, q)
    ensures Inv(Blocked(s, q).(idle := true))
  {
    hide WaitOk, ParentOk, FilesOk;
    var s' := Blocked(s, q).(idle := true);
    assert PlaceOk(s, s.curr);
    BlockedPlaced(s, q);
    FamilyKept(s.procs, s'.procs);
    BlockedWakeups(s, q);
    FilesKept(s, s');
  }

  lemma FilesKept(s: State, s': State)
    requires FilesOk(s) && s'.files == s.files && s'.procs.Keys == s.procs.Keys
    requires forall p :: p in s.procs ==> s'.procs[p].fds == s.procs[p].fds &&
                                          (s'.procs[p].state == Zombie ==> s.procs[p].state == Zombie)
    ensures FilesOk(s')
  {
  }

  lemma BlockedPlaced(s: State, q: QueueId)
    requires Shape(s) && Placed(s) && !s.idle && (q == Keys || q == WaitOf(s.curr))
    ensures Shape(Blocked(s, q).(idle := true)) && Placed(Blocked(s, q).(idle := true))
    ensures SameFamily(s.procs, Blocked(s, q).procs)
  {
    var s' := Blocked(s, q).(idle := true);
    assert PlaceOk(s, s.curr);
    NoDupJoin(Queue(s, Keys), [s.curr]);
    forall p | p in s'.procs ensures PlaceOk(s', p) {
      assert PlaceOk(s, p);
    }
  }

  lemma BlockedWakeups(s: State, q: QueueId)
    requires NoLostWakeup(s) && s.curr in s.procs && MayBlock(s, q) && SameFamily(s.procs, Blocked(s, q).procs)
    ensures NoLostWakeup(Blocked(s, q).(idle := true))
  {
    hide Blocked;
    var s' := Blocked(s, q).(idle := true);
    BlockedQueues(s, q);
    forall p | p in s'.procs ensures WaitOk(s', p) {
      assert WaitOk(s, p);
      if Queue(s', WaitOf(p)) != [] {
        var c :| LiveChild(s.procs, c, p);
        assert LiveChild(s'.procs, c, p);
        forall c | p != 1 ensures !ZombieChild(s'.procs, c, p) {
          assert !ZombieChild(s.procs, c, p);
        }
      }
    }
  }

  lemma BlockedQueues(s: State, q: QueueId)
    requires s.curr in s.procs
    ensures Blocked(s, q).keys == s.keys
    ensures forall k :: k != q ==> Queue(Blocked(s, q), k) == Queue(s, k)
  {
  }

  /** A preempted process goes to the end of the queue. */
  lemma PreemptedInv(s: State, r: Regs)
    requires Inv(s) && !s.idle
    ensures Inv(Enqueued(Saved(s, r), Runnable, s.curr).(idle := true))
  {
    hide WaitOk, ParentOk, FilesOk;
    var s' := Enqueued(Saved(s, r), Runnable, s.curr).(idle := true);
    assert PlaceOk(s, s.curr);
    NoDupJoin(Queue(s, Runnable), [s.curr]);
    forall p | p in s'.procs ensures PlaceOk(s', p) {
      assert PlaceOk(s, p);
    }
    FamilyKept(s.procs, s'.procs);
    WakeupsKept(s, s');
    FilesKept(s, s');
  }

  /** A key is stored and its waiters are released, so the queue is empty whenever there is something to read. */
  lemma KeyInv(s: State, scan: nat)
    requires Inv(s)
    ensures Inv(KeyStep(s, scan))
  {
    hide Parents, FilesOk, Placed, WokenAll, WaitOk;
    if scan < |SCAN_CODES| {
      var keys := if |s.keys| < RING_CAPACITY then s.keys + [SCAN_CODES[scan]] else s.keys;
      var s1 := s.(keys := keys);
      var s' := WokenAll(s1, Keys);
      PlacedKept(s, s1);
      WokenPlaced(s1, Keys);
      WokenFrame(s1, Keys);
      FamilyKept(s.procs, s'.procs);
      QueuesSame(s, s');
      WakeupsKept(s, s');
      FilesKept(s, s');
    }
  }

  lemma QueuesSame(s: State, s': State)
    requires forall k :: k != Keys && k != Runnable ==> Queue(s', k) == Queue(s, k)
    ensures forall p :: Queue(s', WaitOf(p)) != [] ==> Queue(s, WaitOf(p)) != []
  {
  }

  lemma PlacedKept(s: State, s': State)
    requires Placed(s) && s'.lists == s.lists && s'.curr == s.curr && s'.idle == s.idle && s'.procs == s.procs
    ensures Placed(s')
  {
    forall p | p in s'.procs ensures PlaceOk(s', p) {
      assert PlaceOk(s, p);
    }
  }

  // ---- exit

  lemma BuriedParents(procs: Procs, p: nat, status: int)
    requires Parents(procs) && p in procs && p != 1 && 1 in procs && 0 !in procs
    ensures Parents(Buried(procs, p, status)) && Buried(procs, p, status).Keys == procs.Keys
    ensures var q := Buried(procs, p, status)[p].ppid; q in procs && q != p
    ensures forall c :: !ChildOf(Buried(procs, p, status), c, p)
  {
    var procs' := Buried(procs, p, status);
    assert ParentOk(procs, 1) && ParentOk(procs, p);
    forall c | c in procs' ensures ParentOk(procs', c) {
      assert ParentOk(procs, c);
    }
  }

  /** The dying process is in no queue; nobody else moves. */
  lemma BuriedPlaced(s: State, status: int, files: Files)
    requires Shape(s) && Placed(s) && !s.idle
    ensures var s1 := s.(procs := Buried(s.procs, s.curr, status), files := files, idle := true);
            Shape(s1) && Placed(s1)
  {
    var s1 := s.(procs := Buried(s.procs, s.curr, status), files := files, idle := true);
    assert PlaceOk(s, s.curr);
    forall p | p in s1.procs ensures PlaceOk(s1, p) {
      assert PlaceOk(s, p);
    }
  }

  /** Its parent is woken; every other waiting process still has its living child and no zombie. */
  lemma ExitedWaitOk(s: State, status: int, s': State, p: nat)
    requires WaitOk(s, p) && s.curr in s.procs && Queue(s, WaitOf(s.curr)) == []
    requires SameFamily(Buried(s.procs, s.curr, status), s'.procs)
    requires p == Buried(s.procs, s.curr, status)[s.curr].ppid ==> Queue(s', WaitOf(p)) == []
    requires Queue(s', WaitOf(p)) != [] ==> Queue(s, WaitOf(p)) != []
    ensures WaitOk(s', p)
  {
    if Queue(s', WaitOf(p)) != [] {
      var c :| LiveChild(s.procs, c, p);
      assert LiveChild(s'.procs, c, p);
      forall c | p != 1 ensures !ZombieChild(s'.procs, c, p) {
        assert !ZombieChild(s.procs, c, p);
      }
    }
  }

  lemma ExitedInv(s: State, status: int, r: Regs)
    requires Inv(s) && !s.idle && Exited(s, status, r).Next?
    ensures s.curr != 1 && Inv(Exited(s, status, r).s.(idle := true)) && s.curr in Exited(s, status, r).s.procs
    ensures Exited(s, status, r).s.curr == s.curr && Exited(s, status, r).s.procs[s.curr].state == Zombie
    ensures SameFamily(Buried(s.procs, s.curr, status), Exited(s, status, r).s.procs)
  {
    hide WaitOk, ParentOk, PlaceOk, Buried, ClosedAll, NoDup;
    var procs := Buried(s.procs, s.curr, status);
    var files := ClosedAll(s.files, s.procs[s.curr].fds, |s.procs[s.curr].fds|).value;
    var s1 := s.(procs := procs, files := files, idle := true);
    InitCannotExit(s, status, r);
    BuriedParents(s.procs, s.curr, status);
    BuriedPlaced(s, status, files);
    BuriedFacts(s.procs, s.curr, status);
    ClosedAllRefs(s.files, s.procs[s.curr].fds, |s.procs[s.curr].fds|);
    DeathInv(s, s1, status);
    assert WokenAll(s1, WaitOf(procs[s.curr].ppid)) == Exited(s, status, r).s.(idle := true);
  }

  /** The parent of a buried process is woken. */
  lemma DeathInv(s: State, s1: State, status: int)
    requires Inv(s) && !s.idle && s1.procs == Buried(s.procs, s.curr, status) && s1.lists == s.lists && s1.idle && s1.keys == s.keys
    requires s1.procs.Keys == s.procs.Keys
    requires Shape(s1) && Placed(s1) && Parents(s1.procs) && s1.procs[s.curr].ppid in s1.procs && s.curr in s1.procs
    requires s1.procs[s.curr].state == Zombie && forall f :: f in s1.files ==> f != 0 && s1.files[f].refs > 0
    requires forall c :: c in s1.procs && s1.procs[c].state == Zombie ==> s1.procs[c].fds == NoFiles()
    ensures Inv(WokenAll(s1, WaitOf(s1.procs[s.curr].ppid)))
    ensures SameFamily(s1.procs, WokenAll(s1, WaitOf(s1.procs[s.curr].ppid)).procs)
  {
    hide Buried, FilesOk, Placed, Parents, NoLostWakeup, WokenAll;
    var q := WaitOf(s1.procs[s.curr].ppid);
    var s' := WokenAll(s1, q);
    WokenPlaced(s1, q);
    WokenFrame(s1, q);
    assert Placed(s);
    FamilyKept(s1.procs, s'.procs);
    CurrWaitsForNobody(s);
    DeathWakeups(s, s1, s', status);
    DeathFiles(s1, s');
  }

  lemma DeathFiles(s1: State, s': State)
    requires forall f :: f in s1.files ==> f != 0 && s1.files[f].refs > 0
    requires forall c :: c in s1.procs && s1.procs[c].state == Zombie ==> s1.procs[c].fds == NoFiles()
    requires s'.files == s1.files && SameFamily(s1.procs, s'.procs)
    requires forall p :: p in s1.procs ==> s'.procs[p].fds == s1.procs[p].fds
    ensures FilesOk(s')
  {
  }

  lemma DeathWakeups(s: State, s1: State, s': State, status: int)
    requires NoLostWakeup(s) && s.curr in s.procs && Queue(s, WaitOf(s.curr)) == []
    requires s1.procs == Buried(s.procs, s.curr, status) && s.curr in s1.procs && s1.procs.Keys == s.procs.Keys
    requires SameFamily(s1.procs, s'.procs) && s'.keys == s.keys && Queue(s', Keys) == Queue(s, Keys)
    requires forall p :: p != s1.procs[s.curr].ppid ==> Queue(s', WaitOf(p)) == Queue(s, WaitOf(p))
    requires Queue(s', WaitOf(s1.procs[s.curr].ppid)) == []
    ensures NoLostWakeup(s')
  {
    hide WaitOk, Buried;
    forall p | p in s'.procs ensures WaitOk(s', p) {
      assert WaitOk(s, p);
      ExitedWaitOk(s, status, s', p);
    }
  }

  /** Only init's exit can fail the parent assertion. */
  lemma InitCannotExit(s: State, status: int, r: Regs)
    requires Inv(s) && !s.idle
    ensures ClosedAll(s.files, s.procs[s.curr].fds, |s.procs[s.curr].fds|).Some? ==>
              (Exited(s, status, r) == Panic <==> s.curr == 1)
  {
    hide WaitOk, PlaceOk, FilesOk;
    assert ParentOk(s.procs, 1) && ParentOk(s.procs, s.curr);
  }

  lemma BuriedFacts(procs: Procs, p: nat, status: int)
    requires p in procs
    ensures var procs' := Buried(procs, p, status);
            && procs'.Keys == procs.Keys && procs'[p].state == Zombie && procs'[p].fds == NoFiles()
            && procs'[p].kill == procs[p].kill && procs'[p].status == status
            && forall c :: c in procs && c != p ==> procs'[c].state == procs[c].state && procs'[c].fds == procs[c].fds &&
                                                    procs'[c].saved == procs[c].saved &&
                                                    procs'[c].kill == procs[c].kill && procs'[c].status == procs[c].status
  {
  }

  lemma CurrWaitsForNobody(s: State)
    requires Shape(s) && Placed(s) && !s.idle
    ensures Queue(s, WaitOf(s.curr)) == [] && s.procs[s.curr].state == Runs && s.curr !in Queue(s, Runnable) && s.curr !in Queue(s, Keys)
  {
    assert PlaceOk(s, s.curr);
  }

  /** Closing keeps every remaining file referenced. */
  lemma {:induction false} ClosedAllRefs(files: Files, fds: seq<nat>, n: nat)
    requires n <= |fds| && forall f :: f in files ==> f != 0 && files[f].refs > 0
    ensures ClosedAll(files, fds, n).Some? ==>
              forall f :: f in ClosedAll(files, fds, n).value ==> f != 0 && ClosedAll(files, fds, n).value[f].refs > 0
  {
    if n > 0 {
      ClosedAllRefs(files, fds, n - 1);
    }
  }

  // ---- fork

  lemma ForkedInv(s: State, r: Regs)
    requires Inv(s) && !s.idle && Forked(s, r).Next?
    ensures Inv(Forked(s, r).s)
  {
    hide WaitOk, ParentOk, PlaceOk;
    var s', c := Forked(s, r).s, FreePid(s.procs, 1).value;
    CurrWaitsForNobody(s);
    ForkedParents(s.procs, s'.procs, s.curr, c);
    ForkedPlaced(s, s', c);
    ForkedWakeups(s, s', c);
    SharedAllRefs(s.files, s.procs[s.curr].fds, |s.procs[s.curr].fds|);
    ForkedFiles(s, s', c);
  }

  /** A child joins the table. */
  ghost predicate Born(procs: Procs, procs': Procs, p: nat, c: nat) {
    && c !in procs && p in procs && procs'.Keys == procs.Keys + {c}
    && (forall k :: k in procs ==> procs'[k] == procs[k]) && procs'[c].ppid == p && procs'[c].state == Runs
  }

  lemma ForkedParents(procs: Procs, procs': Procs, p: nat, c: nat)
    requires Parents(procs) && Born(procs, procs', p, c) && procs[p].state == Runs && c != 1
    ensures Parents(procs')
  {
    forall k | k in procs' ensures ParentOk(procs', k) {
      assert k != c ==> ParentOk(procs, k);
    }
  }

  lemma ForkedPlaced(s: State, s': State, c: nat)
    requires Shape(s) && Placed(s) && !s.idle && Born(s.procs, s'.procs, s.curr, c) && 0 < c < MAX_PIDS
    requires s'.lists == s.lists[WaitOf(c) := []][Runnable := Queue(s, Runnable) + [c]]
    requires s'.curr == s.curr && !s'.idle && s'.keys == s.keys && |s'.procs[c].fds| == MAX_FDS
    ensures Shape(s') && Placed(s')
  {
    assert c !in Queue(s, Runnable) && c !in Queue(s, Keys);
    NoDupJoin(Queue(s, Runnable), [c]);
    forall p | p in s'.procs ensures PlaceOk(s', p) {
      assert p != c ==> PlaceOk(s, p);
    }
  }

  lemma ForkedWakeups(s: State, s': State, c: nat)
    requires NoLostWakeup(s) && Born(s.procs, s'.procs, s.curr, c) && s'.keys == s.keys
    requires forall q :: q != Runnable && q != WaitOf(c) ==> Queue(s', q) == Queue(s, q)
    requires Queue(s', WaitOf(c)) == []
    ensures NoLostWakeup(s')
  {
    forall p | p in s'.procs ensures WaitOk(s', p) {
      assert p != c ==> WaitOk(s, p);
      if Queue(s', WaitOf(p)) != [] {
        var k :| LiveChild(s.procs, k, p);
        assert LiveChild(s'.procs, k, p);
        forall k | p != 1 ensures !ZombieChild(s'.procs, k, p) {
          assert !ZombieChild(s.procs, k, p);
        }
      }
    }
  }

  lemma ForkedFiles(s: State, s': State, c: nat)
    requires FilesOk(s) && Born(s.procs, s'.procs, s.curr, c)
    requires forall f :: f in s'.files ==> f != 0 && s'.files[f].refs > 0
    ensures FilesOk(s')
  {
  }

  lemma {:induction false} SharedAllRefs(files: Files, fds: seq<nat>, n: nat)
    requires n <= |fds| && forall f :: f in files ==> f != 0 && files[f].refs > 0
    ensures SharedAll(files, fds, n).Some? ==>
              forall f :: f in SharedAll(files, fds, n).value ==> f != 0 && SharedAll(files, fds, n).value[f].refs > 0
  {
    if n > 0 {
      SharedAllRefs(files, fds, n - 1);
    }
  }

  // ---- wait

  /** A reaped zombie is nobody's parent and in no queue. */
  lemma ReapedInv(s: State, z: nat)
    requires Inv(s) && !s.idle && ZombieChild(s.procs, z, s.curr)
    ensures Inv(s.(procs := s.procs - {z}, lists := s.lists - {WaitOf(z)}))
    ensures Queue(s, WaitOf(z)) == [] && forall c :: !ChildOf(s.procs, c, z)
  {
    hide WaitOk, PlaceOk, FilesOk;
    var s' := s.(procs := s.procs - {z}, lists := s.lists - {WaitOf(z)});
    CurrWaitsForNobody(s);
    assert ParentOk(s.procs, 1);
    forall p | p in s.procs ensures ParentOk(s.procs, p) && s.procs[p].ppid != z {
      assert ParentOk(s.procs, p);
    }
    ReapedPlaced(s, s', z);
    ReapedWakeups(s, s', z);
    ReapedFiles(s, s', z);
  }

  lemma ReapedPlaced(s: State, s': State, z: nat)
    requires Shape(s) && Placed(s) && !s.idle && z in s.procs && s.procs[z].state == Zombie && z != 1 && z != s.curr
    requires s' == s.(procs := s.procs - {z}, lists := s.lists - {WaitOf(z)})
    ensures Shape(s') && Placed(s') && Queue(s, WaitOf(z)) == []
  {
    assert PlaceOk(s, z);
    forall p | p in s'.procs ensures PlaceOk(s', p) {
      assert PlaceOk(s, p);
    }
  }

  lemma ReapedWakeups(s: State, s': State, z: nat)
    requires NoLostWakeup(s) && z in s.procs && s.procs[z].state == Zombie
    requires s' == s.(procs := s.procs - {z}, lists := s.lists - {WaitOf(z)})
    ensures NoLostWakeup(s')
  {
    forall p | p in s'.procs ensures WaitOk(s', p) {
      assert WaitOk(s, p);
      if Queue(s', WaitOf(p)) != [] {
        var k :| LiveChild(s.procs, k, p);
        assert LiveChild(s'.procs, k, p);
        forall k | p != 1 ensures !ZombieChild(s'.procs, k, p) {
          assert !ZombieChild(s.procs, k, p);
        }
      }
    }
  }

  lemma ReapedFiles(s: State, s': State, z: nat)
    requires FilesOk(s) && s'.procs == s.procs - {z} && s'.files == s.files
    ensures FilesOk(s')
  {
  }
}
