/** Stores the kernel makes through pointers it got from user code: read, wait and gettimeofday write into the address
    space that is in cr3, the caller's. */
module UserMemory {
  import opened Machine
  import opened PageTables
  import opened CloneSpec
  import opened WalkSpec
  import opened PhysBytes
  import opened Vmm
  import opened Loader
  import opened Translation

  /** The end of the lower half. */
  const LOWER_END: nat := LOWER_PAGES * PAGE

  ghost predicate Writable(tree: Node, page: nat) {
    page in Space(tree) && Space(tree)[page].flags.writable
  }

  /** Every byte of the range lies on a page that can be written. */
  ghost predicate CanStore(tree: Node, addr: nat, n: nat) {
    forall v: nat :: addr <= v < addr + n ==> Writable(tree, v / PAGE)
  }

  /** User code may read and write every byte of the range. */
  ghost predicate UserMay(mem: Memory, root: nat, addr: nat, n: nat) {
    forall v: nat :: addr <= v < addr + n ==> UserReaches(mem, root, v)
  }

  ghost predicate UserReaches(mem: Memory, root: nat, vaddr: nat) {
    Processor(mem, root, vaddr).Reach? && Processor(mem, root, vaddr).writable && Processor(mem, root, vaddr).user
  }

  /** Pages with the rights of user data are what user code may use. */
  lemma UserPages(mem: Memory, used: set<nat>, tree: Node, addr: nat, n: nat)
    requires TreeOk(mem, used, tree) && addr + n <= LOWER_END
    requires forall v: nat :: addr <= v < addr + n ==> v / PAGE in Space(tree) && Space(tree)[v / PAGE].flags == USER_PAGE
    ensures UserMay(mem, tree.frame, addr, n)
  {
    hide Space, Processor, Sound, Frames, Distinct;
    forall v: nat | addr <= v < addr + n ensures UserReaches(mem, tree.frame, v) {
      SpaceIsTranslation(mem, used, tree, v);
    }
  }

  /** Every byte of the range lies on a page that is mapped. */
  ghost predicate CanFetch(tree: Node, addr: nat, n: nat) {
    forall v: nat :: addr <= v < addr + n ==> v / PAGE in Space(tree)
  }

  /** Through the address space `tree`, memory now reads `data` from addr on and everything else as before; only pages of
      data of that address space were written. */
  ghost predicate StoredAt(mem: Memory, mem': Memory, tree: Node, addr: nat, data: seq<byte>) {
    && mem'.Keys == mem.Keys && OnlyIn(mem, mem', Frames(tree) - Tables(tree)) && (data == [] ==> mem' == mem)
    && forall v: nat :: ReadVirtual(mem', tree, v) ==
                        if addr <= v < addr + |data| then Some(data[v - addr]) else ReadVirtual(mem, tree, v)
  }

  lemma StoredNothing(mem: Memory, tree: Node, addr: nat)
    ensures StoredAt(mem, mem, tree, addr, [])
  {
    hide ReadVirtual;
  }

  lemma {:induction false} PassesPrefix(node: Node, path: seq<nat>)
    requires Passes(node, path) && path != []
    ensures Passes(node, path[..|path| - 1]) && At(node, path[..|path| - 1]).Branch?
    ensures path[|path| - 1] < |At(node, path[..|path| - 1]).kids|
    decreases |path|
  {
    if |path| > 1 {
      PassesPrefix(node.kids[path[0]], path[1..]);
      assert path[1..][..|path| - 2] == path[..|path| - 1][1..];
    }
  }

  /** The entry a walk ends at is the translation of the page. */
  lemma EntryFound(mem: Memory, used: set<nat>, tree: Node, page: nat, cur: nat)
    requires TreeOk(mem, used, tree) && page < LOWER_PAGES && AtLastTable(mem, tree, PathOf(page), cur)
    ensures page in Space(tree) <==> mem[cur].entries[PathOf(page)[3]] != ZERO
    ensures page in Space(tree) ==> Space(tree)[page] == mem[cur].entries[PathOf(page)[3]]
  {
    var path := PathOf(page);
    PassesPrefix(tree, path);
    assert path[..3] + [path[3]] == path;
    StandingAt(mem, used, tree, path[..3], path[3]);
    LookupAfterPut(tree, path, Absent, path);
    assert Lookup(tree, path) == Lookup(At(tree, path), path[4..]);
  }

  /** The processor's walk for one page of the lower half. */
  method FindPage(vm: AddressSpaces, root: nat, page: nat) returns (found: bool, e: Entry)
    requires vm.Valid() && root in vm.trees && page < LOWER_PAGES
    ensures found <==> page in Space(vm.trees[root])
    ensures found ==> e == Space(vm.trees[root])[page]
  {
    hide Separate, Space, Frames, TreeOk, AtLastTable, Lookup;
    var path := PathOf(page);
    PathsDiffer(page, page);
    RootHasFrame(vm.mem, vm.pmm.Used(), vm.trees, root);
    e := ZERO;
    var cur;
    found, cur := vm.FindTable(root, path, vm.trees[root]);
    NotFound(vm.trees[root], page);
    if found {
      EntryFound(vm.mem, vm.pmm.Used(), vm.trees[root], page, cur);
      LastTableIs(vm.mem, vm.trees[root], path, cur);
      e := vm.mem[cur].entries[path[3]];
      found := e != ZERO;
    }
  }

  lemma NotFound(tree: Node, page: nat)
    ensures Lookup(tree, PathOf(page)).None? ==> page !in Space(tree)
  {
  }

  lemma LastTableIs(mem: Memory, tree: Node, path: seq<nat>, cur: nat)
    requires AtLastTable(mem, tree, path, cur)
    ensures IsTable(mem, cur) && path[3] < ENTRIES
  {
  }

  /** One byte stored through an address space. */
  lemma StoreOne(mem: Memory, used: set<nat>, tree: Node, v: nat, b: byte)
    requires TreeOk(mem, used, tree) && v / PAGE in Space(tree)
    ensures Space(tree)[v / PAGE].index in mem && Space(tree)[v / PAGE].index in Frames(tree) - Tables(tree)
    ensures var at := Space(tree)[v / PAGE].index * PAGE + v % PAGE;
            && PageOf(at) == Space(tree)[v / PAGE].index && OffsetIn(at) == v % PAGE
            && OnlyIn(mem, Stored(mem, at, b), {Space(tree)[v / PAGE].index})
            && forall w: nat :: ReadVirtual(Stored(mem, at, b), tree, w) == if w == v then Some(b) else ReadVirtual(mem, tree, w)
  {
    hide Space, TreeOk, Frames, Tables;
    var f := Space(tree)[v / PAGE].index;
    var at := f * PAGE + v % PAGE;
    OwnFrames(mem, used, tree, v / PAGE);
    PageInMemory(mem, used, tree, v / PAGE);
    assert PageOf(at) == f && OffsetIn(at) == v % PAGE;
    forall w: nat
      ensures ReadVirtual(Stored(mem, at, b), tree, w) == if w == v then Some(b) else ReadVirtual(mem, tree, w)
    {
      if w / PAGE in Space(tree) && w / PAGE == v / PAGE {
        assert w % PAGE == v % PAGE <==> w == v;
      }
    }
  }

  lemma StoredSnoc(mem: Memory, mem1: Memory, mem': Memory, used: set<nat>, tree: Node, addr: nat, data: seq<byte>, b: byte)
    requires StoredAt(mem, mem1, tree, addr, data) && TreeOk(mem1, used, tree) && (addr + |data|) / PAGE in Space(tree)
    requires var v := addr + |data|;
             var at := Space(tree)[v / PAGE].index * PAGE + v % PAGE; PageOf(at) in mem1 && mem' == Stored(mem1, at, b)
    ensures StoredAt(mem, mem', tree, addr, data + [b])
  {
    hide Space, TreeOk, Frames, Tables, ReadVirtual, Stored, PageOf;
    var v := addr + |data|;
    StoreOne(mem1, used, tree, v, b);
    OnlyInTrans(mem, mem1, mem', Frames(tree) - Tables(tree), {Space(tree)[v / PAGE].index}, Frames(tree) - Tables(tree));
    StoredKeys(mem1, Space(tree)[v / PAGE].index * PAGE + v % PAGE, b);
    forall w: nat
      ensures ReadVirtual(mem', tree, w) ==
              if addr <= w < addr + |data| + 1 then Some((data + [b])[w - addr]) else ReadVirtual(mem, tree, w)
    {
      assert ReadVirtual(mem1, tree, w) == if addr <= w < addr + |data| then Some(data[w - addr]) else ReadVirtual(mem, tree, w);
    }
  }

  lemma StoredKeys(mem: Memory, at: nat, b: byte)
    requires PageOf(at) in mem
    ensures Stored(mem, at, b).Keys == mem.Keys
  {
  }

  /** Writing into pages of data disturbs no pagemap. */
  lemma StillSeparate(mem: Memory, mem': Memory, used: set<nat>, trees: map<nat, Node>, root: nat)
    requires Separate(mem, used, trees) && root in trees && mem'.Keys == mem.Keys
    requires OnlyIn(mem, mem', Frames(trees[root]) - Tables(trees[root]))
    ensures Separate(mem', used, trees)
  {
    hide Holds, Frames, Distinct, Live, Tables;
    forall r | r in trees ensures Pagemap(mem', used, r, trees[r]) {
      assert Pagemap(mem, used, r, trees[r]);
      TablesAreFrames(trees[r]);
      if r != root {
        assert Frames(trees[r]) !! Frames(trees[root]);
      }
      HoldsTables(mem, mem', trees[r], TOP_LEVEL);
    }
  }

  /** A store through a pointer into the lower half; false is the page fault, on which the kernel panics. It happens
      exactly if some byte of the range is on no page that can be written. */
  method StoreUser(vm: AddressSpaces, root: nat, addr: nat, data: seq<byte>) returns (ok: bool)
    requires vm.Valid() && root in vm.trees && addr + |data| <= LOWER_END
    modifies vm`mem
    ensures ok <==> CanStore(vm.trees[root], addr, |data|)
    ensures ok ==> vm.Valid() && StoredAt(old(vm.mem), vm.mem, vm.trees[root], addr, data)
  {
    hide Separate, Space, Frames, TreeOk, StoredAt, Stored, PageOf;
    ghost var mem0, tree := vm.mem, vm.trees[root];
    StoredNothing(mem0, tree, addr);
    assert data[..0] == [];
    for k := 0 to |data|
      invariant vm.Valid() && StoredAt(mem0, vm.mem, tree, addr, data[..k])
      invariant forall v: nat :: addr <= v < addr + k ==> Writable(tree, v / PAGE)
    {
      var v := addr + k;
      var found, e := FindPage(vm, root, v / PAGE);
      if !found || !e.flags.writable {
        assert !Writable(tree, v / PAGE);
        return false;
      }
      ghost var mem1 := vm.mem;
      RootHasFrame(mem1, vm.pmm.Used(), vm.trees, root);
      StoreOne(mem1, vm.pmm.Used(), tree, v, data[k]);
      vm.mem := Stored(vm.mem, e.index * PAGE + v % PAGE, data[k]);
      StoredSnoc(mem0, mem1, vm.mem, vm.pmm.Used(), tree, addr, data[..k], data[k]);
      assert data[..k] + [data[k]] == data[..k + 1];
      StoredKeys(mem1, e.index * PAGE + v % PAGE, data[k]);
      OnlyInTrans(mem1, mem1, vm.mem, {}, {e.index}, Frames(tree) - Tables(tree));
      StillSeparate(mem1, vm.mem, vm.pmm.Used(), vm.trees, root);
    }
    assert data[..|data|] == data;
    ok := true;
  }

  /** Whether the kernel can read a range of the lower half; false is the page fault. */
  method FetchUser(vm: AddressSpaces, root: nat, addr: nat, n: nat) returns (ok: bool)
    requires vm.Valid() && root in vm.trees && addr + n <= LOWER_END
    ensures ok <==> CanFetch(vm.trees[root], addr, n)
  {
    hide Separate, Space;
    for k := 0 to n
      invariant forall v: nat :: addr <= v < addr + k ==> v / PAGE in Space(vm.trees[root])
    {
      var page := (addr + k) / PAGE;
      var e;
      ok, e := FindPage(vm, root, page);
      if !ok {
        return;
      }
    }
    ok := true;
  }

  /** What user code then reads there. */
  lemma UserSees(mem: Memory, mem': Memory, used: set<nat>, tree: Node, addr: nat, data: seq<byte>, k: nat)
    requires StoredAt(mem, mem', tree, addr, data) && TreeOk(mem', used, tree) && k < |data|
    requires addr + |data| <= LOWER_END && (addr + k) / PAGE in Space(tree) && Space(tree)[(addr + k) / PAGE].flags.user
    ensures UserRead(mem', tree.frame, addr + k) == Some(data[k])
  {
    hide Space, TreeOk, UserRead, ReadVirtual;
    UserReads(mem', used, tree, addr + k);
  }
}
