/** The process machine, step by step: kernel/process_manager, kernel/syscall, kernel/vfs and the keyboard. */
module ProcSpec {
  import opened Machine
  import opened Vfs

  const MAX_PIDS: nat := 0x1000
  const MAX_FDS: nat := 32
  const KILL_STATUS: int := 139
  const USER_CS: nat := 0x23
  const USER_SS: nat := 0x1B
  const MINUS_ONE: u64 := TWO64 - 1
  /** A ring buffer of 2056 bytes holds one less. */
  const RING_CAPACITY: nat := 2055

  /** The flags execve starts a program with. */
  const START_FLAGS: u64 := 0x202

  /** struct interrupt_info; `rest` are the registers the kernel only copies. */
  datatype Regs = Regs(rax: u64, rcx: u64, rdx: u64, rsi: u64, rdi: u64, r11: u64, rip: u64, rsp: u64, cs: nat, ss: nat,
                       rest: seq<u64>)

  datatype RunState = Runs | Waits | Zombie

  /** struct process_control_block; file 0 is NULL. */
  datatype Proc = Proc(ppid: nat, state: RunState, kill: bool, status: int, saved: Regs, fds: seq<nat>)

  type Procs = map<nat, Proc>

  type Files = map<nat, File>

  /** g_runnable_tasks, the keyboard's wait queue, and the parent_wait_queue of each process. */
  datatype QueueId = Runnable | Keys | WaitOf(pid: nat)

  type Lists = map<QueueId, seq<nat>>

  datatype State = State(procs: Procs, lists: Lists, curr: nat, idle: bool, keys: seq<byte>, files: Files)

  /** How a kernel entry ends; Undefined is a use of freed memory. */
  datatype Outcome = Next(s: State, regs: Regs) | Panic | Undefined

  /** Kernel entries. `r` are the registers at entry; `found` and `id` are what the file system and the heap answer
      to open, `entry` is the entry point of the program execve could load, and `ret` the result of brk and
      gettimeofday. */
  datatype Event = Tick(r: Regs)
                 | Fault(r: Regs)
                 | Key(scan: nat, r: Regs)
                 | Wake
                 | Syscall(r: Regs, found: Option<File>, id: nat, entry: Option<u64>, ret: u64)

  ghost function Queue(s: State, q: QueueId): seq<nat> {
    if q in s.lists then s.lists[q] else []
  }

  // ---- Queues and the scheduler.

  ghost function Enqueued(s: State, q: QueueId, p: nat): State {
    s.(lists := s.lists[q := Queue(s, q) + [p]])
  }

  ghost function Readied(procs: Procs, list: seq<nat>): Procs {
    map p | p in procs :: if p in list then procs[p].(state := Runs) else procs[p]
  }

  /** pm_waitqueue_dequeue_all */
  ghost function WokenAll(s: State, q: QueueId): State {
    s.(procs := Readied(s.procs, Queue(s, q)),
       lists := s.lists[Runnable := Queue(s, Runnable) + Queue(s, q)][q := []])
  }

  /** pm_waitqueue_enqueue */
  ghost function Blocked(s: State, q: QueueId): State
    requires s.curr in s.procs
  {
    Enqueued(s.(procs := s.procs[s.curr := s.procs[s.curr].(state := Waits)]), q, s.curr)
  }

  /** pm_load_next_ready_process, up to the first time it finds the queue empty. */
  ghost function LoadNext(s: State, r: Regs): Outcome {
    if Queue(s, Runnable) == [] then Next(s.(idle := true), r)
    else if Queue(s, Runnable)[0] !in s.procs then Undefined
    else
      var p := Queue(s, Runnable)[0];
      Next(s.(curr := p, idle := false, lists := s.lists[Runnable := Queue(s, Runnable)[1..]]), s.procs[p].saved)
  }

  ghost function Saved(s: State, r: Regs): State
    requires s.curr in s.procs
  {
    s.(procs := s.procs[s.curr := s.procs[s.curr].(saved := r)])
  }

  predicate Ring0(r: Regs) {
    r.cs % 4 == 0
  }

  // ---- Files.

  ghost function Closed(files: Files, f: nat): Option<Files> {
    if f !in files then None
    else match Dropped(files[f])
      case None => Some(files - {f})
      case Some(file) => Some(files[f := file])
  }

  /** Closing the first n descriptors of a table. */
  ghost function ClosedAll(files: Files, fds: seq<nat>, n: nat): Option<Files>
    requires n <= |fds|
  {
    if n == 0 then Some(files)
    else match ClosedAll(files, fds, n - 1)
      case None => None
      case Some(rest) => if fds[n - 1] == 0 then Some(rest) else Closed(rest, fds[n - 1])
  }

  ghost function Shared(files: Files, f: nat): Option<Files> {
    if f !in files then None else Some(files[f := files[f].(refs := files[f].refs + 1)])
  }

  /** One more reference for each of the first n descriptors. */
  ghost function SharedAll(files: Files, fds: seq<nat>, n: nat): Option<Files>
    requires n <= |fds|
  {
    if n == 0 then Some(files)
    else match SharedAll(files, fds, n - 1)
      case None => None
      case Some(rest) => if fds[n - 1] == 0 then Some(rest) else Shared(rest, fds[n - 1])
  }

  predicate FdValid(fd: int, fds: seq<nat>) {
    0 <= fd < |fds| && fds[fd] != 0
  }

  /** The lowest free descriptor from i on. */
  ghost function FirstNull(fds: seq<nat>, i: nat): (r: Option<nat>)
    ensures r.Some? ==> i <= r.value < |fds| && fds[r.value] == 0 && forall j :: i <= j < r.value ==> fds[j] != 0
    ensures r.None? ==> forall j :: i <= j < |fds| ==> fds[j] != 0
    decreases |fds| - i
  {
    if i >= |fds| then None else if fds[i] == 0 then Some(i) else FirstNull(fds, i + 1)
  }

  ghost function NoFiles(): seq<nat> {
    seq(MAX_FDS, _ => 0)
  }

  // ---- Processes.

  /** generate_pid, from i on. */
  ghost function FreePid(procs: Procs, i: nat): (r: Option<nat>)
    ensures r.Some? ==> i <= r.value < MAX_PIDS && r.value !in procs && forall p :: i <= p < r.value ==> p in procs
    ensures r.None? ==> forall p :: i <= p < MAX_PIDS ==> p in procs
    decreases MAX_PIDS - i
  {
    if i >= MAX_PIDS then None else if i !in procs then Some(i) else FreePid(procs, i + 1)
  }

  ghost predicate ChildOf(procs: Procs, c: nat, p: nat) {
    c in procs && procs[c].ppid == p
  }

  ghost predicate ZombieChild(procs: Procs, c: nat, p: nat) {
    ChildOf(procs, c, p) && procs[c].state == Zombie
  }

  ghost predicate LiveChild(procs: Procs, c: nat, p: nat) {
    ChildOf(procs, c, p) && procs[c].state != Zombie
  }

  /** The scan of pm_wait: the lowest zombie child from i on. */
  ghost function FirstZombie(procs: Procs, p: nat, i: nat): (r: Option<nat>)
    ensures r.Some? ==> i <= r.value < MAX_PIDS && ZombieChild(procs, r.value, p)
    ensures r.Some? ==> forall c :: i <= c < r.value ==> !ZombieChild(procs, c, p)
    ensures r.None? ==> forall c :: i <= c < MAX_PIDS ==> !ZombieChild(procs, c, p)
    decreases MAX_PIDS - i
  {
    if i >= MAX_PIDS then None else if ZombieChild(procs, i, p) then Some(i) else FirstZombie(procs, p, i + 1)
  }

  /** has_children after a scan that found no zombie. */
  ghost predicate HasChild(procs: Procs, p: nat, n: nat) {
    exists c :: 0 <= c < n && LiveChild(procs, c, p)
  }

  ghost function Reparented(procs: Procs, p: nat): Procs {
    map c | c in procs :: if procs[c].ppid == p then procs[c].(ppid := 1) else procs[c]
  }

  /** The process table while the current process dies, before its parent is woken. */
  ghost function Buried(procs: Procs, p: nat, status: int): Procs
    requires p in procs
  {
    Reparented(procs[p := procs[p].(state := Zombie, status := status, fds := NoFiles())], p)
  }

  /** pm_exit of the current process. */
  ghost function Exited(s: State, status: int, r: Regs): Outcome
    requires s.curr in s.procs
  {
    match ClosedAll(s.files, s.procs[s.curr].fds, |s.procs[s.curr].fds|)
    case None => Undefined
    case Some(files) =>
      var procs := Buried(s.procs, s.curr, status);
      if procs[s.curr].ppid !in procs then Panic
      else Next(WokenAll(s.(procs := procs, files := files), WaitOf(procs[s.curr].ppid)), r)
  }

  /** pm_fork; `r` are the caller's registers as the handler sees them. */
  ghost function Forked(s: State, r: Regs): Outcome
    requires s.curr in s.procs
  {
    var me := s.procs[s.curr];
    match FreePid(s.procs, 1)
    case None => Panic
    case Some(c) =>
      match SharedAll(s.files, me.fds, |me.fds|)
      case None => Undefined
      case Some(files) =>
        var child := Proc(s.curr, Runs, false, 0, r.(rax := 0), me.fds);
        var s1 := s.(procs := s.procs[c := child], files := files, lists := s.lists[WaitOf(c) := []]);
        Next(Enqueued(s1, Runnable, c), r.(rax := c))
  }

  /** pm_wait */
  ghost function Waited(s: State, r: Regs): Outcome
    requires s.curr in s.procs
  {
    match FirstZombie(s.procs, s.curr, 0)
    case Some(z) => Next(s.(procs := s.procs - {z}, lists := s.lists - {WaitOf(z)}), r.(rax := z))
    case None =>
      if HasChild(s.procs, s.curr, MAX_PIDS) then Next(Blocked(s, WaitOf(s.curr)), r.(rax := 0))
      else Next(s, r.(rax := MINUS_ONE))
  }

  /** The (int) cast of a register, then read as a size_t. */
  function IntArg(x: u64): int {
    var low := x % TWO32;
    if low < TWO32 / 2 then low else low - TWO32
  }

  /** syscall_kill_handler and pm_kill */
  ghost function Killed(s: State, r: Regs): Outcome {
    var pid := IntArg(r.rdi);
    if r.rsi != 9 || pid < 0 || pid >= MAX_PIDS || pid !in s.procs then Next(s, r.(rax := MINUS_ONE))
    else Next(s.(procs := s.procs[pid := s.procs[pid].(kill := true)]), r.(rax := 0))
  }

  // ---- Descriptor calls.

  ghost function WithFd(s: State, i: nat, f: nat): State
    requires s.curr in s.procs && i < |s.procs[s.curr].fds|
  {
    s.(procs := s.procs[s.curr := s.procs[s.curr].(fds := s.procs[s.curr].fds[i := f])])
  }

  ghost function OpenCall(s: State, r: Regs, found: Option<File>, id: nat): Outcome
    requires s.curr in s.procs
  {
    match found
    case None => Next(s, r.(rax := MINUS_ONE))
    case Some(file) =>
      if id == 0 || id in s.files then Undefined
      else
        var s1 := s.(files := s.files[id := Opened(file.size, file.backing)]);
        match FirstNull(s.procs[s.curr].fds, 0)
        case Some(i) => Next(WithFd(s1, i, id), r.(rax := i % TWO64))
        case None => Next(s1, r.(rax := MINUS_ONE))
  }

  /** The heap's promise to open: no file in memory is at the address of the new one. A stale descriptor may still name
      it; it then names the new file. */
  ghost predicate FreshFile(s: State, found: Option<File>, id: nat) {
    found.Some? ==> id != 0 && id !in s.files
  }

  ghost function CloseCall(s: State, r: Regs): Outcome
    requires s.curr in s.procs
  {
    var fd, fds := Signed(r.rdi), s.procs[s.curr].fds;
    if !FdValid(fd, fds) then Next(s, r.(rax := MINUS_ONE))
    else match Closed(s.files, fds[fd])
      case None => Undefined
      case Some(files) => Next(WithFd(s.(files := files), fd, 0), r.(rax := 0))
  }

  ghost function DupCall(s: State, r: Regs): Outcome
    requires s.curr in s.procs
  {
    var fd, fds := Signed(r.rdi), s.procs[s.curr].fds;
    if !FdValid(fd, fds) then Next(s, r.(rax := MINUS_ONE))
    else match FirstNull(fds, 0)
      case None => Next(s, r.(rax := MINUS_ONE))
      case Some(i) =>
        match Shared(s.files, fds[fd])
        case None => Undefined
        case Some(files) =>
          Next(WithFd(s.(files := files), i, fds[fd]), r.(rax := i % TWO64))
  }

  ghost function Dup2Call(s: State, r: Regs): Outcome
    requires s.curr in s.procs
  {
    var (fd, target, fds) := (Signed(r.rdi), Signed(r.rsi), s.procs[s.curr].fds);
    if !FdValid(fd, fds) || target < 0 || target >= |fds| then Next(s, r.(rax := MINUS_ONE))
    else if fd == target then Next(s, r.(rax := r.rsi))
    else match (if fds[target] != 0 then Closed(s.files, fds[target]) else Some(s.files))
      case None => Undefined
      case Some(files) =>
        match Shared(files, fds[fd])
        case None => Undefined
        case Some(files') => Next(WithFd(s.(files := files'), target, fds[fd]), r.(rax := r.rsi))
  }

  /** syscall_read_handler, vfs_read and ps2_read. */
  ghost function ReadCall(s: State, r: Regs): Outcome
    requires s.curr in s.procs
  {
    var fd, fds := Signed(r.rdi), s.procs[s.curr].fds;
    if !FdValid(fd, fds) then Next(s, r.(rax := MINUS_ONE))
    else if fds[fd] !in s.files then Undefined
    else
      var f, file := fds[fd], s.files[fds[fd]];
      if file.position >= file.size then Next(s, r.(rax := 0))
      else if WriteOnly(file.backing) then Next(s, r.(rax := MINUS_ONE))
      else
        var n := Clip(file, r.rdx);
        if FromKeyboard(file.backing) then
          if n > 0 && s.keys == [] then Next(Blocked(s, Keys), r.(rax := 0))
          else
            var m: u64 := if n <= |s.keys| then n else |s.keys|;
            Next(s.(keys := s.keys[m..], files := s.files[f := Moved(file, m)]), r.(rax := m))
        else Next(s.(files := s.files[f := Moved(file, n)]), r.(rax := n))
  }

  /** What a read puts into the caller's buffer: keys, or the bytes of a file from its position on; nothing if it fails or
      blocks. */
  ghost function Given(s: State, r: Regs): seq<byte>
    requires s.curr in s.procs
  {
    var fd, fds := Signed(r.rdi), s.procs[s.curr].fds;
    if !FdValid(fd, fds) || fds[fd] !in s.files then []
    else
      var file := s.files[fds[fd]];
      var n := Clip(file, r.rdx);
      if file.position >= file.size || WriteOnly(file.backing) || Overruns(file, r.rdx) then []
      else if file.backing.Regular? then file.backing.data[file.position..file.position + n]
      else s.keys[..if n <= |s.keys| then n else |s.keys|]
  }

  /** The read would go beyond the contents that were loaded when the file was opened. */
  predicate Overruns(file: File, n: u64) {
    file.backing.Regular? && file.position < file.size && file.position + Clip(file, n) > |file.backing.data|
  }

  /** file_position after reading n bytes; a count that reads as negative moves nothing. */
  function Moved(file: File, n: u64): File {
    if Signed(n) > 0 then file.(position := Add64(file.position, n)) else file
  }

  /** syscall_write_handler and vfs_write: devices take everything (the framebuffer without saying so), FAT12 files and the keyboard panic. */
  ghost function WriteCall(s: State, r: Regs): Outcome
    requires s.curr in s.procs
  {
    var fd, fds := Signed(r.rdi), s.procs[s.curr].fds;
    if !FdValid(fd, fds) then Next(s, r.(rax := MINUS_ONE))
    else if fds[fd] !in s.files then Undefined
    else
      var f, file := fds[fd], s.files[fds[fd]];
      if file.backing.Regular? || file.backing == Keyboard then Panic
      else
        var n := Written(file.backing, r.rdx);
        Next(s.(files := s.files[f := Stretched(Moved(file, n))]), r.(rax := n))
  }

  /** A file grows to its position. */
  function Stretched(file: File): File {
    if file.position > file.size then file.(size := file.position) else file
  }

  /** syscall_lseek_handler; the third argument is cut to the 32 bits of the enumeration. */
  ghost function SeekCall(s: State, r: Regs): Outcome
    requires s.curr in s.procs
  {
    var fd, fds := Signed(r.rdi), s.procs[s.curr].fds;
    if !FdValid(fd, fds) then Next(s, r.(rax := MINUS_ONE))
    else if fds[fd] !in s.files then Undefined
    else if r.rdx % TWO32 > 2 then Next(s, r.(rax := MINUS_ONE))
    else
      var whence := if r.rdx % TWO32 == 0 then Set else if r.rdx % TWO32 == 1 then Cur else End;
      var (file, pos) := Seek(s.files[fds[fd]], Signed(r.rsi), whence);
      Next(s.(files := s.files[fds[fd] := file]), r.(rax := if pos < 0 then MINUS_ONE else pos))
  }

  /** brk and gettimeofday work outside the process machine; only their result reaches the registers. */
  predicate Foreign(number: nat) {
    number in {12, 96}
  }

  /** The registers a program starts with after execve. */
  function Started(r: Regs, entry: u64): Regs {
    r.(rax := 0, rip := entry, rcx := entry, rsp := USER_STACK_PTR, r11 := START_FLAGS)
  }

  /** pm_execve: a new program in the same process, or -1; the file it opens it also closes. */
  ghost function ExecCall(s: State, r: Regs, entry: Option<u64>): Outcome {
    match entry
    case None => Next(s, r.(rax := MINUS_ONE))
    case Some(start) => Next(s, Started(r, start))
  }

  /** The switch of syscall_kernel_handler. */
  ghost function Handled(s: State, r: Regs, e: Event): Outcome
    requires s.curr in s.procs && e.Syscall?
  {
    if r.rax == 0 then ReadCall(s, r)
    else if r.rax == 1 then WriteCall(s, r)
    else if r.rax == 2 then OpenCall(s, r, e.found, e.id)
    else if r.rax == 3 then CloseCall(s, r)
    else if r.rax == 8 then SeekCall(s, r)
    else if r.rax == 32 then DupCall(s, r)
    else if r.rax == 33 then Dup2Call(s, r)
    else if r.rax == 39 then Next(s, r.(rax := s.curr % TWO64))
    else if r.rax == 57 then Forked(s, r)
    else if r.rax == 59 then ExecCall(s, r, e.entry)
    else if r.rax == 60 then Exited(s, IntArg(r.rdi), r)
    else if r.rax == 61 then Waited(s, r)
    else if r.rax == 62 then Killed(s, r)
    else if r.rax == 110 then Next(s, r.(rax := s.procs[s.curr].ppid % TWO64))
    else if Foreign(r.rax) then Next(s, r.(rax := e.ret))
    else Panic
  }

  ghost function UserSegments(r: Regs): Regs {
    r.(cs := USER_CS, ss := USER_SS)
  }

  /** What a blocked process will be resumed with: it executes the two-byte syscall instruction again. */
  ghost function Restart(r: Regs): Regs {
    UserSegments(r).(rip := Sub64(r.rip, 2))
  }

  /** syscall_kernel_handler */
  ghost function SyscallStep(s: State, e: Event): Outcome
    requires s.curr in s.procs && e.Syscall?
  {
    var r := UserSegments(e.r);
    match Handled(s, r, e)
    case Panic => Panic
    case Undefined => Undefined
    case Next(s1, r1) =>
      if s.curr !in s1.procs then Undefined
      else if s1.procs[s.curr].state == Runs then Next(s1, r1)
      else
        var r2 := r1.(rax := e.r.rax, rip := Sub64(r1.rip, 2));
        var s2 := s1.(procs := s1.procs[s.curr := s1.procs[s.curr].(saved := r2)]);
        LoadNext(s2, r2)
  }

  /** pm_scheduler_context_switch on a processor that is not idle. */
  ghost function Switched(s: State, r: Regs): Outcome
    requires s.curr in s.procs
  {
    if Ring0(r) then Panic
    else if s.procs[s.curr].kill then
      match Exited(s, KILL_STATUS, r)
      case Next(s1, _) => LoadNext(s1, r)
      case Panic => Panic
      case Undefined => Undefined
    else if Queue(s, Runnable) == [] then Next(s, r)
    else LoadNext(Enqueued(Saved(s, r), Runnable, s.curr), r)
  }

  ghost function KeyStep(s: State, scan: nat): State {
    if scan >= |SCAN_CODES| then s
    else
      var keys := if |s.keys| < RING_CAPACITY then s.keys + [SCAN_CODES[scan]] else s.keys;
      WokenAll(s.(keys := keys), Keys)
  }

  /** The keyboard's translation table, as character codes. */
  const SCAN_CODES: seq<byte> :=
    [0, 0, 49, 50, 51, 52, 53, 54, 55, 56, 57, 48, 45, 61, 8,
     0, 113, 119, 101, 114, 116, 121, 117, 105, 111, 112, 91, 93, 10, 10,
     97, 115, 100, 102, 103, 104, 106, 107, 108, 59, 39, 96, 0, 92, 122,
     120, 99, 118, 98, 110, 109, 44, 46, 47, 0, 42, 0, 32]

  /** Which entries can happen: user code runs unless the processor idles inside the kernel. */
  ghost predicate Enabled(s: State, e: Event) {
    s.curr in s.procs &&
    match e
    case Tick(_) => true
    case Key(_, _) => true
    case Fault(_) => !s.idle
    case Syscall(_, _, _, _, _) => !s.idle
    case Wake => s.idle
  }

  ghost function Step(s: State, e: Event): Outcome
    requires Enabled(s, e)
  {
    match e
    case Tick(r) => if s.idle then Next(s, r) else Switched(s, r)
    case Fault(r) =>
      if Ring0(r) then Panic
      else Switched(s.(procs := s.procs[s.curr := s.procs[s.curr].(kill := true)]), r)
    case Key(scan, r) => Next(KeyStep(s, scan), r)
    case Wake => LoadNext(s, s.procs[s.curr].saved)
    case Syscall(_, _, _, _, _) => SyscallStep(s, e)
  }

  /** The machine init_process_manager leaves behind: pid 1 runs, its descriptors 0 to 2 share /dev/tty, and the file
      it was loaded from stays open. */
  ghost function Boot(tty: nat, image: nat, file: File, r: Regs): State
    requires tty != 0 && image != 0 && tty != image
  {
    State(map[1 := Proc(0, Runs, false, 0, r, [tty, tty, tty] + seq(MAX_FDS - 3, _ => 0))],
          map[Runnable := [], Keys := [], WaitOf(1) := []], 1, false, [],
          map[tty := Opened(DEVICE_SIZE, Tty), image := Opened(file.size, file.backing)])
  }
}
