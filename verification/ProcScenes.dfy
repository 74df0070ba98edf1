/** A run from boot in which init waits beside a zombie: the wake-up that reparenting loses, reached by system calls. */
module ProcScenes {
  import opened Machine
  import opened Vfs
  import opened ProcSpec
  import opened ProcInv
  import opened ProcRuns
  import opened ProcContexts

  /** What a scene says of one process. */
  datatype Kin = Kin(ppid: nat, state: RunState)

  /** Processes 1, 2, ... in order, the run queue, who runs, whether init waits, and the references to /dev/tty. */
  datatype Scene = Scene(kin: seq<Kin>, queue: seq<nat>, curr: nat, waiting: bool, refs: nat)

  ghost function TtyFds(tty: nat): seq<nat> {
    [tty, tty, tty] + seq(MAX_FDS - 3, _ => 0)
  }

  ghost predicate ProcIs(procs: Procs, p: nat, kin: seq<Kin>, tty: nat)
    requires 1 <= p <= |kin|
  {
    var k := kin[p - 1];
    && p in procs && procs[p].ppid == k.ppid && procs[p].state == k.state && !procs[p].kill
    && procs[p].fds == if k.state == Zombie then NoFiles() else TtyFds(tty)
  }

  /** The state shows the scene, every living process with its three descriptors on the terminal. */
  ghost predicate Shows(s: State, tty: nat, v: Scene) {
    && tty != 0 && 1 <= v.curr <= |v.kin| && s.curr == v.curr && !s.idle
    && (forall p :: p in s.procs <==> 1 <= p <= |v.kin|)
    && (forall p :: 1 <= p <= |v.kin| ==> ProcIs(s.procs, p, v.kin, tty))
    && Queue(s, Runnable) == v.queue && Queue(s, WaitOf(1)) == (if v.waiting then [1] else [])
    && (forall p :: p != 1 ==> Queue(s, WaitOf(p)) == [])
    && tty in s.files && s.files[tty].refs == v.refs
  }

  lemma {:induction false} RunSnoc(s: State, es: seq<Event>, e: Event)
    requires RunOk(s, es) && Enabled(After(s, es), e) && Step(After(s, es), e).Next?
    ensures RunOk(s, es + [e]) && After(s, es + [e]) == Step(After(s, es), e).s
    decreases |es|
  {
    hide Step, Enabled;
    if es == [] {
      assert es + [e] == [e] && [e][1..] == [];
      assert RunOk(Step(s, e).s, []);
    } else {
      RunSnoc(Step(s, es[0]).s, es[1..], e);
      assert (es + [e])[1..] == es[1..] + [e] && (es + [e])[0] == es[0];
    }
  }

  // ---- The files: only the terminal's count moves.

  lemma {:induction false} SharedTty(files: Files, tty: nat, n: nat)
    requires tty in files && tty != 0 && n <= MAX_FDS
    ensures var k := if n <= 3 then n else 3;
            SharedAll(files, TtyFds(tty), n) == Some(files[tty := files[tty].(refs := files[tty].refs + k)])
  {
    if n == 0 {
      assert files[tty := files[tty]] == files;
    } else {
      SharedTty(files, tty, n - 1);
      var k := if n - 1 <= 3 then n - 1 else 3;
      var rest := files[tty := files[tty].(refs := files[tty].refs + k)];
      assert TtyFds(tty)[n - 1] == if n <= 3 then tty else 0;
      if n <= 3 {
        assert rest[tty := rest[tty].(refs := rest[tty].refs + 1)] == files[tty := files[tty].(refs := files[tty].refs + n)];
      }
    }
  }

  lemma {:induction false} ClosedTty(files: Files, tty: nat, n: nat)
    requires tty in files && tty != 0 && n <= MAX_FDS && files[tty].refs > 3
    ensures var k := if n <= 3 then n else 3;
            ClosedAll(files, TtyFds(tty), n) == Some(files[tty := files[tty].(refs := files[tty].refs - k)])
  {
    if n == 0 {
      assert files[tty := files[tty]] == files;
    } else {
      ClosedTty(files, tty, n - 1);
      var k := if n - 1 <= 3 then n - 1 else 3;
      var rest := files[tty := files[tty].(refs := files[tty].refs - k)];
      assert TtyFds(tty)[n - 1] == if n <= 3 then tty else 0;
      if n <= 3 {
        assert rest[tty := rest[tty].(refs := rest[tty].refs - 1)] == files[tty := files[tty].(refs := files[tty].refs - n)];
      }
    }
  }

  // ---- What steps do to scenes.

  /** A call with no answer from outside. */
  function Call(u: Regs, number: u64): Event {
    Syscall(u.(rax := number), None, 0, None, 0)
  }

  /** The next process in line takes the processor. */
  function Loaded(v: Scene): Scene
    requires v.queue != []
  {
    v.(curr := v.queue[0], queue := v.queue[1..])
  }

  ghost predicate Ready(v: Scene) {
    v.queue != [] && 1 <= v.queue[0] <= |v.kin|
  }

  lemma LoadShows(s: State, tty: nat, v: Scene, r: Regs)
    requires Shows(s.(idle := false), tty, v) && Ready(v)
    ensures LoadNext(s, r).Next? && Shows(LoadNext(s, r).s, tty, Loaded(v))
  {
    var s' := LoadNext(s, r).s;
    assert v.queue[0] in s.procs;
    forall p | 1 <= p <= |v.kin| ensures ProcIs(s'.procs, p, v.kin, tty) {
      assert ProcIs(s.procs, p, v.kin, tty);
    }
  }

  function Forks(v: Scene): Scene {
    v.(kin := v.kin + [Kin(v.curr, Runs)], queue := v.queue + [|v.kin| + 1], refs := v.refs + 3)
  }

  lemma ForkShows(s: State, tty: nat, v: Scene, u: Regs)
    requires Shows(s, tty, v) && v.kin[v.curr - 1].state == Runs && |v.kin| + 1 < MAX_PIDS
    ensures Enabled(s, Call(u, 57)) && Step(s, Call(u, 57)).Next? && Shows(Step(s, Call(u, 57)).s, tty, Forks(v))
  {
    hide SharedAll, FreePid, TtyFds, NoFiles;
    var r, v' := UserSegments(u.(rax := 57)), Forks(v);
    assert ProcIs(s.procs, v.curr, v.kin, tty);
    NextPid(s.procs, |v.kin|);
    SharedTty(s.files, tty, MAX_FDS);
    TtyFdsLength(tty);
    var s' := Forked(s, r).s;
    assert Step(s, Call(u, 57)) == Forked(s, r);
    forall p | 1 <= p <= |v'.kin| ensures ProcIs(s'.procs, p, v'.kin, tty) {
      assert p <= |v.kin| ==> ProcIs(s.procs, p, v.kin, tty);
    }
  }

  lemma TtyFdsLength(tty: nat)
    ensures |TtyFds(tty)| == MAX_FDS
  {
  }

  lemma NextPid(procs: Procs, n: nat)
    requires (forall p :: p in procs <==> 1 <= p <= n) && n + 1 < MAX_PIDS
    ensures FreePid(procs, 1) == Some(n + 1)
  {
    assert n + 1 !in procs;
  }

  lemma TickShows(s: State, tty: nat, v: Scene, u: Regs)
    requires Shows(s, tty, v) && Ready(v) && !Ring0(u)
    ensures Enabled(s, Tick(u)) && Step(s, Tick(u)).Next?
    ensures Shows(Step(s, Tick(u)).s, tty, Loaded(v.(queue := v.queue + [v.curr])))
  {
    hide LoadNext;
    assert ProcIs(s.procs, v.curr, v.kin, tty);
    var s1, v1 := Enqueued(Saved(s, u), Runnable, s.curr), v.(queue := v.queue + [v.curr]);
    forall p | 1 <= p <= |v.kin| ensures ProcIs(s1.procs, p, v.kin, tty) {
      assert ProcIs(s.procs, p, v.kin, tty);
    }
    assert Shows(s1.(idle := false), tty, v1);
    LoadShows(s1, tty, v1, u);
  }

  /** Init waits with living children only. */
  lemma WaitShows(s: State, tty: nat, v: Scene, u: Regs)
    requires Shows(s, tty, v) && Ready(v) && v.curr == 1 && !v.waiting && |v.kin| < MAX_PIDS
    requires (forall i :: 0 <= i < |v.kin| ==> v.kin[i].state != Zombie) && exists i :: 0 <= i < |v.kin| && v.kin[i].ppid == 1
    ensures Enabled(s, Call(u, 61)) && Step(s, Call(u, 61)).Next?
    ensures Shows(Step(s, Call(u, 61)).s, tty, Loaded(v.(kin := v.kin[0 := v.kin[0].(state := Waits)], waiting := true)))
  {
    hide LoadNext, FirstZombie, HasChild, Blocked;
    var r := UserSegments(u.(rax := 61));
    OnlyLiving(s, tty, v);
    var r2 := r.(rip := Sub64(r.rip, 2));
    BlockedShows(s, tty, v, r2);
    var s1 := Blocked(s, WaitOf(1));
    BlockedCurr(s, WaitOf(1));
    var s2 := s1.(procs := s1.procs[1 := s1.procs[1].(saved := r2)]);
    LoadShows(s2, tty, v.(kin := v.kin[0 := v.kin[0].(state := Waits)], waiting := true), r2);
    assert Step(s, Call(u, 61)) == LoadNext(s2, r2);
  }

  lemma OnlyLiving(s: State, tty: nat, v: Scene)
    requires Shows(s, tty, v) && |v.kin| < MAX_PIDS && forall i :: 0 <= i < |v.kin| ==> v.kin[i].state != Zombie
    requires exists i :: 0 <= i < |v.kin| && v.kin[i].ppid == v.curr
    ensures FirstZombie(s.procs, s.curr, 0) == None && HasChild(s.procs, s.curr, MAX_PIDS)
  {
    forall p | 1 <= p <= |v.kin| ensures !ZombieChild(s.procs, p, s.curr) {
      assert ProcIs(s.procs, p, v.kin, tty);
    }
    var i :| 0 <= i < |v.kin| && v.kin[i].ppid == v.curr;
    assert ProcIs(s.procs, i + 1, v.kin, tty);
    assert LiveChild(s.procs, i + 1, s.curr);
  }

  lemma BlockedShows(s: State, tty: nat, v: Scene, r: Regs)
    requires Shows(s, tty, v) && v.curr == 1 && !v.waiting && v.kin[0].state != Zombie
    ensures 1 in Blocked(s, WaitOf(1)).procs
    ensures var s1 := Blocked(s, WaitOf(1));
            Shows(s1.(procs := s1.procs[1 := s1.procs[1].(saved := r)]), tty,
                  v.(kin := v.kin[0 := v.kin[0].(state := Waits)], waiting := true))
  {
    var s1, kin := Blocked(s, WaitOf(1)), v.kin[0 := v.kin[0].(state := Waits)];
    var s2 := s1.(procs := s1.procs[1 := s1.procs[1].(saved := r)]);
    forall p | 1 <= p <= |kin| ensures ProcIs(s2.procs, p, kin, tty) {
      assert ProcIs(s.procs, p, v.kin, tty);
    }
  }

  /** Process p dies and its children become init's. */
  function Buries(kin: seq<Kin>, p: nat): seq<Kin> {
    seq(|kin|, i requires 0 <= i < |kin| =>
      Kin(if kin[i].ppid == p then 1 else kin[i].ppid, if i + 1 == p then Zombie else kin[i].state))
  }

  lemma ExitShows(s: State, tty: nat, v: Scene, u: Regs)
    requires Shows(s, tty, v) && Ready(v) && v.refs > 3 && v.kin[v.curr - 1].state == Runs
    requires var q := v.kin[v.curr - 1].ppid; 1 < q <= |v.kin| && q != v.curr
    ensures Enabled(s, Call(u, 60)) && Step(s, Call(u, 60)).Next?
    ensures Shows(Step(s, Call(u, 60)).s, tty, Loaded(v.(kin := Buries(v.kin, v.curr), refs := v.refs - 3)))
  {
    hide LoadNext, ClosedAll, Buried, WokenAll;
    var r := UserSegments(u.(rax := 60));
    var r2, status := r.(rip := Sub64(r.rip, 2)), IntArg(r.rdi);
    assert ProcIs(s.procs, v.curr, v.kin, tty);
    ClosedTty(s.files, tty, MAX_FDS);
    BuriedShows(s, tty, v, status, r2);
    var procs := Buried(s.procs, s.curr, status);
    var s1 := WokenAll(s.(procs := procs, files := ClosedAll(s.files, TtyFds(tty), MAX_FDS).value), WaitOf(procs[s.curr].ppid));
    assert Exited(s, status, r) == Next(s1, r);
    var s2 := s1.(procs := s1.procs[s.curr := s1.procs[s.curr].(saved := r2)]);
    LoadShows(s2, tty, v.(kin := Buries(v.kin, v.curr), refs := v.refs - 3), r2);
    assert Step(s, Call(u, 60)) == LoadNext(s2, r2);
  }

  lemma BuriedShows(s: State, tty: nat, v: Scene, status: int, r: Regs)
    requires Shows(s, tty, v) && v.refs > 3 && v.kin[v.curr - 1].state == Runs
    requires var q := v.kin[v.curr - 1].ppid; 1 < q <= |v.kin| && q != v.curr
    requires ClosedAll(s.files, TtyFds(tty), MAX_FDS) == Some(s.files[tty := s.files[tty].(refs := v.refs - 3)])
    ensures var procs := Buried(s.procs, s.curr, status);
            && s.curr in procs && procs[s.curr].ppid in procs
            && var s1 := WokenAll(s.(procs := procs, files := ClosedAll(s.files, TtyFds(tty), MAX_FDS).value),
                                  WaitOf(procs[s.curr].ppid));
               && s.curr in s1.procs && s1.procs[s.curr].state == Zombie
               && Shows(s1.(procs := s1.procs[s.curr := s1.procs[s.curr].(saved := r)]), tty,
                        v.(kin := Buries(v.kin, v.curr), refs := v.refs - 3))
  {
    hide ClosedAll, Buried, WokenAll, Buries, NoFiles, ProcIs;
    TtyFdsLength(tty);
    BuriedKin(s, tty, v, status, r);
    var procs, kin := Buried(s.procs, s.curr, status), Buries(v.kin, v.curr);
    var s0 := s.(procs := procs, files := ClosedAll(s.files, TtyFds(tty), MAX_FDS).value);
    WokenNobody(s0, WaitOf(procs[s.curr].ppid));
    var s1 := WokenAll(s0, WaitOf(procs[s.curr].ppid));
    var s2 := s1.(procs := s1.procs[s.curr := s1.procs[s.curr].(saved := r)]);
    assert s2.procs == procs[s.curr := procs[s.curr].(saved := r)];
    forall k ensures Queue(s2, k) == Queue(s, k) {
      assert Queue(s1, k) == Queue(s0, k);
    }
    SameQueues(s, s2);
  }

  /** The process table of a scene after a death. */
  lemma BuriedKin(s: State, tty: nat, v: Scene, status: int, r: Regs)
    requires Shows(s, tty, v) && v.kin[v.curr - 1].state == Runs
    requires var q := v.kin[v.curr - 1].ppid; 1 < q <= |v.kin| && q != v.curr
    ensures var procs := Buried(s.procs, s.curr, status);
            && procs.Keys == s.procs.Keys && s.curr in procs && procs[s.curr].state == Zombie
            && 1 < procs[s.curr].ppid && procs[s.curr].ppid in procs && |Buries(v.kin, v.curr)| == |v.kin|
            && var procs' := procs[s.curr := procs[s.curr].(saved := r)];
               forall p :: 1 <= p <= |v.kin| ==> ProcIs(procs', p, Buries(v.kin, v.curr), tty)
  {
    hide Buried, Queue;
    assert ProcIs(s.procs, v.curr, v.kin, tty);
    var procs, kin := Buried(s.procs, s.curr, status), Buries(v.kin, v.curr);
    BuriedFacts(s.procs, s.curr, status);
    BuriedLinks(s.procs, s.curr, status, s.curr);
    var procs' := procs[s.curr := procs[s.curr].(saved := r)];
    forall p | 1 <= p <= |kin| ensures ProcIs(procs', p, kin, tty) {
      assert ProcIs(s.procs, p, v.kin, tty);
      BuriedLinks(s.procs, s.curr, status, p);
    }
  }

  lemma BuriedLinks(procs: Procs, p: nat, status: int, c: nat)
    requires p in procs && c in procs
    ensures var procs' := Buried(procs, p, status);
            procs'[c].ppid == (if procs[c].ppid == p then 1 else procs[c].ppid) && procs'[c].kill == procs[c].kill
  {
  }

  /** Waking an empty queue changes nothing that can be seen. */
  lemma WokenNobody(s: State, q: QueueId)
    requires Queue(s, q) == [] && q != Runnable
    ensures var s' := WokenAll(s, q);
            && s'.procs == s.procs && s'.files == s.files && s'.curr == s.curr && s'.idle == s.idle
            && forall k :: Queue(s', k) == Queue(s, k)
  {
    assert Queue(s, Runnable) + [] == Queue(s, Runnable);
  }

  lemma SameQueues(s: State, s': State)
    requires forall k :: Queue(s', k) == Queue(s, k)
    ensures Queue(s', Runnable) == Queue(s, Runnable) && forall p :: Queue(s', WaitOf(p)) == Queue(s, WaitOf(p))
  {
  }

  // ---- The run.

  lemma BootShows(tty: nat, image: nat, file: File, r: Regs)
    requires tty != 0 && image != 0 && tty != image
    ensures Shows(Boot(tty, image, file, r), tty, Scene([Kin(0, Runs)], [], 1, false, 1))
  {
    var s := Boot(tty, image, file, r);
    assert ProcIs(s.procs, 1, [Kin(0, Runs)], tty);
  }

  /** init forks 2 and waits; 2 forks 3; 3 forks 4; 4 exits; 3 exits. */
  ghost function Orphaning(u: Regs): seq<Event> {
    [Call(u, 57), Call(u, 61), Call(u, 57), Tick(u), Call(u, 57), Tick(u), Tick(u), Call(u, 60), Call(u, 60)]
  }

  lemma OneMore(u: Regs, k: nat)
    requires k < |Orphaning(u)|
    ensures Orphaning(u)[..k] + [Orphaning(u)[k]] == Orphaning(u)[..k + 1]
  {
  }

  /** One more step of a run, seen as a scene. */
  ghost predicate RunShows(s: State, es: seq<Event>, tty: nat, v: Scene) {
    RunOk(s, es) && Shows(After(s, es), tty, v)
  }

  lemma ForkRun(s: State, es: seq<Event>, tty: nat, v: Scene, u: Regs)
    requires RunShows(s, es, tty, v) && v.kin[v.curr - 1].state == Runs && |v.kin| + 1 < MAX_PIDS
    ensures RunShows(s, es + [Call(u, 57)], tty, Forks(v))
  {
    hide RunOk, Step, Enabled;
    ForkShows(After(s, es), tty, v, u);
    RunSnoc(s, es, Call(u, 57));
  }

  lemma TickRun(s: State, es: seq<Event>, tty: nat, v: Scene, u: Regs)
    requires RunShows(s, es, tty, v) && Ready(v) && !Ring0(u)
    ensures RunShows(s, es + [Tick(u)], tty, Loaded(v.(queue := v.queue + [v.curr])))
  {
    hide RunOk, Step, Enabled;
    TickShows(After(s, es), tty, v, u);
    RunSnoc(s, es, Tick(u));
  }

  lemma ExitRun(s: State, es: seq<Event>, tty: nat, v: Scene, u: Regs)
    requires RunShows(s, es, tty, v) && Ready(v) && v.refs > 3 && v.kin[v.curr - 1].state == Runs
    requires var q := v.kin[v.curr - 1].ppid; 1 < q <= |v.kin| && q != v.curr
    ensures RunShows(s, es + [Call(u, 60)], tty, Loaded(v.(kin := Buries(v.kin, v.curr), refs := v.refs - 3)))
  {
    hide RunOk, Step, Enabled;
    ExitShows(After(s, es), tty, v, u);
    RunSnoc(s, es, Call(u, 60));
  }

  lemma WaitRun(s: State, es: seq<Event>, tty: nat, v: Scene, u: Regs)
    requires RunShows(s, es, tty, v) && Ready(v) && v.curr == 1 && !v.waiting && |v.kin| < MAX_PIDS
    requires (forall i :: 0 <= i < |v.kin| ==> v.kin[i].state != Zombie) && exists i :: 0 <= i < |v.kin| && v.kin[i].ppid == 1
    ensures RunShows(s, es + [Call(u, 61)], tty,
                     Loaded(v.(kin := v.kin[0 := v.kin[0].(state := Waits)], waiting := true)))
  {
    hide RunOk, Step, Enabled;
    WaitShows(After(s, es), tty, v, u);
    RunSnoc(s, es, Call(u, 61));
  }

  lemma InitWaits(s: State, tty: nat, u: Regs)
    requires Shows(s, tty, Scene([Kin(0, Runs)], [], 1, false, 1))
    ensures RunShows(s, Orphaning(u)[..2], tty, Scene([Kin(0, Waits), Kin(1, Runs)], [], 2, true, 4))
  {
    hide RunShows, Shows;
    var v0 := Scene([Kin(0, Runs)], [], 1, false, 1);
    assert RunShows(s, Orphaning(u)[..0], tty, v0) by {
      StartRun(s, tty, v0);
    }
    ForkRun(s, Orphaning(u)[..0], tty, v0, u);
    OneMore(u, 0);
    var v1 := Scene([Kin(0, Runs), Kin(1, Runs)], [2], 1, false, 4);
    assert Forks(v0) == v1 && v1.kin[1].ppid == 1;
    WaitRun(s, Orphaning(u)[..1], tty, v1, u);
    OneMore(u, 1);
    var v2 := Scene([Kin(0, Waits), Kin(1, Runs)], [], 2, true, 4);
    assert Loaded(v1.(kin := v1.kin[0 := v1.kin[0].(state := Waits)], waiting := true)) == v2;
  }

  /** Until process 3 has forked process 4 and both are in line. */
  lemma FamilyGrows(s: State, tty: nat, u: Regs)
    requires Shows(s, tty, Scene([Kin(0, Runs)], [], 1, false, 1)) && !Ring0(u)
    ensures RunShows(s, Orphaning(u)[..6], tty,
                     Scene([Kin(0, Waits), Kin(1, Runs), Kin(2, Runs), Kin(3, Runs)], [4, 3], 2, true, 10))
  {
    hide RunShows, Shows;
    InitWaits(s, tty, u);
    var v2 := Scene([Kin(0, Waits), Kin(1, Runs)], [], 2, true, 4);
    ForkRun(s, Orphaning(u)[..2], tty, v2, u);
    OneMore(u, 2);
    var v3 := Scene([Kin(0, Waits), Kin(1, Runs), Kin(2, Runs)], [3], 2, true, 7);
    assert Forks(v2) == v3;
    TickRun(s, Orphaning(u)[..3], tty, v3, u);
    OneMore(u, 3);
    var v4 := Scene(v3.kin, [2], 3, true, 7);
    assert Loaded(v3.(queue := v3.queue + [v3.curr])) == v4;
    ForkRun(s, Orphaning(u)[..4], tty, v4, u);
    OneMore(u, 4);
    var v5 := Scene([Kin(0, Waits), Kin(1, Runs), Kin(2, Runs), Kin(3, Runs)], [2, 4], 3, true, 10);
    assert Forks(v4) == v5;
    TickRun(s, Orphaning(u)[..5], tty, v5, u);
    OneMore(u, 5);
    assert Loaded(v5.(queue := v5.queue + [v5.curr])) == Scene(v5.kin, [4, 3], 2, true, 10);
  }

  lemma StartRun(s: State, tty: nat, v: Scene)
    requires Shows(s, tty, v)
    ensures RunShows(s, [], tty, v)
  {
  }

  lemma FamilyDies(s: State, tty: nat, u: Regs)
    requires RunShows(s, Orphaning(u)[..6], tty,
                      Scene([Kin(0, Waits), Kin(1, Runs), Kin(2, Runs), Kin(3, Runs)], [4, 3], 2, true, 10)) && !Ring0(u)
    ensures RunShows(s, Orphaning(u), tty,
                     Scene([Kin(0, Waits), Kin(1, Runs), Kin(2, Zombie), Kin(1, Zombie)], [], 2, true, 4))
  {
    hide RunShows, Shows;
    var v6 := Scene([Kin(0, Waits), Kin(1, Runs), Kin(2, Runs), Kin(3, Runs)], [4, 3], 2, true, 10);
    TickRun(s, Orphaning(u)[..6], tty, v6, u);
    OneMore(u, 6);
    var v7 := Scene(v6.kin, [3, 2], 4, true, 10);
    assert Loaded(v6.(queue := v6.queue + [v6.curr])) == v7;
    ExitRun(s, Orphaning(u)[..7], tty, v7, u);
    OneMore(u, 7);
    var v8 := Scene([Kin(0, Waits), Kin(1, Runs), Kin(2, Runs), Kin(3, Zombie)], [2], 3, true, 7);
    assert Buries(v7.kin, 4) == v8.kin;
    assert Loaded(v7.(kin := Buries(v7.kin, v7.curr), refs := v7.refs - 3)) == v8;
    ExitRun(s, Orphaning(u)[..8], tty, v8, u);
    OneMore(u, 8);
    var kin := [Kin(0, Waits), Kin(1, Runs), Kin(2, Zombie), Kin(1, Zombie)];
    assert Buries(v8.kin, 3) == kin;
    assert Loaded(v8.(kin := Buries(v8.kin, v8.curr), refs := v8.refs - 3)) == Scene(kin, [], 2, true, 4);
    assert Orphaning(u)[..9] == Orphaning(u);
  }

  /** The run is one the kernel can take from boot, and it ends with init waiting beside a zombie child. */
  lemma WakeupLostByInit(tty: nat, image: nat, file: File, r: Regs, u: Regs)
    requires tty != 0 && image != 0 && tty != image && !Ring0(u)
    ensures RunOk(Boot(tty, image, file, r), Orphaning(u))
    ensures InitStuck(After(Boot(tty, image, file, r), Orphaning(u)))
  {
    hide RunOk, Orphaning;
    var s := Boot(tty, image, file, r);
    BootShows(tty, image, file, r);
    FamilyGrows(s, tty, u);
    FamilyDies(s, tty, u);
    var s' := After(s, Orphaning(u));
    assert ProcIs(s'.procs, 4, [Kin(0, Waits), Kin(1, Runs), Kin(2, Zombie), Kin(1, Zombie)], tty);
    assert ZombieChild(s'.procs, 4, 1);
  }
}
