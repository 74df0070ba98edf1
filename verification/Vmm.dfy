/** kernel/mm/vmm/vmm.c over the physical allocator. */
module Vmm {
  import opened Machine
  import opened PageTables
  import opened Pmm
  import opened CloneSpec
  import opened DeleteSpec
  import opened WalkSpec

  /** A pagemap: the tree of its lower half, with distinct frames that are all in use. */
  ghost predicate Pagemap(mem: Memory, used: set<nat>, root: nat, tree: Node) {
    TreeOk(mem, used, tree) && EntryOf(tree) == Entry(ROOT_FLAGS, root)
  }

  /** The roots whose tree is a pagemap in this memory. */
  ghost function Pagemaps(mem: Memory, used: set<nat>, trees: map<nat, Node>): set<nat> {
    set r | r in trees && Pagemap(mem, used, r, trees[r])
  }

  /** Every pagemap is well formed and no two share a frame. */
  ghost predicate Separate(mem: Memory, used: set<nat>, trees: map<nat, Node>) {
    && trees.Keys <= Pagemaps(mem, used, trees)
    && (forall r, q {:trigger Frames(trees[r]), Frames(trees[q])} ::
          r in trees && q in trees && r != q ==> Frames(trees[r]) !! Frames(trees[q]))
  }

  /** The root table has no entry of its own; its tree carries these flags by convention. */
  const ROOT_FLAGS := NO_FLAGS.(present := true, writable := true, user := true)

  /** The memcpy and memset of vmm_create_new_pagemap. */
  function FreshRoot(entries: seq<Entry>): (t: Frame)
    requires |entries| == ENTRIES
    ensures t.Table? && |t.entries| == ENTRIES
    ensures forall i :: 0 <= i < LOWER_HALF ==> t.entries[i] == ZERO
    ensures forall i :: LOWER_HALF <= i < ENTRIES ==> t.entries[i] == entries[i]
  {
    Table(seq(LOWER_HALF, _ => ZERO) + entries[LOWER_HALF..])
  }

  ghost function Blank(): (kids: seq<Node>)
    ensures |kids| == LOWER_HALF && forall i :: 0 <= i < LOWER_HALF ==> kids[i] == Absent
  {
    seq(LOWER_HALF, _ => Absent)
  }

  lemma BlankPagemap(mem: Memory, used: set<nat>, root: nat)
    requires IsTable(mem, root) && root in used && root != 0
    requires forall i :: 0 <= i < LOWER_HALF ==> mem[root].entries[i] == ZERO
    ensures Pagemap(mem, used, root, Branch(ROOT_FLAGS, root, Blank()))
    ensures Frames(Branch(ROOT_FLAGS, root, Blank())) == {root}
  {
    var tree := Branch(ROOT_FLAGS, root, Blank());
    AbsentKids(tree.kids, LOWER_HALF);
    assert |tree.kids| == Limit(TOP_LEVEL);
    assert forall i :: 0 <= i < |tree.kids| ==> Holds(mem, tree.kids[i], TOP_LEVEL - 1) && Live(tree.kids[i]);
    assert Holds(mem, tree, TOP_LEVEL) && Live(tree);
  }

  lemma PagemapFrame(mem: Memory, mem': Memory, used: set<nat>, used': set<nat>, root: nat, tree: Node)
    requires Pagemap(mem, used, root, tree) && Agree(mem, mem', Frames(tree)) && Frames(tree) <= used'
    ensures Pagemap(mem', used', root, tree)
  {
    HoldsFrame(mem, mem', tree, TOP_LEVEL);
  }

  /** A new pagemap in frames that were free leaves the others as they were. */
  lemma PagemapAdded(mem: Memory, mem': Memory, used: set<nat>, used': set<nat>, trees: map<nat, Node>, tree: Node)
    requires Separate(mem, used, trees) && tree.Branch?
    requires Pagemap(mem', used', tree.frame, tree)
    requires Taken(used, used', Frames(tree)) && OnlyIn(mem, mem', Frames(tree))
    ensures Separate(mem', used', trees[tree.frame := tree]) && tree.frame !in trees
  {
    forall r | r in trees
      ensures Pagemap(mem', used', r, trees[r]) && Frames(trees[r]) !! Frames(tree) && r != tree.frame
    {
      assert r in Frames(trees[r]);
      AgreeOutside(mem, mem', Frames(tree), Frames(trees[r]));
      PagemapFrame(mem, mem', used, used', r, trees[r]);
    }
  }

  /** A finished walk of recursive_pagemap_clone over a root table makes the target a pagemap, the twin of the source. */
  lemma ClonedPagemap(mem: Memory, mem': Memory, used: set<nat>, used': set<nat>, tree: Node, to: nat, copy: seq<Node>)
    requires tree.Branch? && Pagemap(mem, used, tree.frame, tree) && to in used && to != 0
    requires |copy| == |tree.kids| && Cloned(mem, mem', used, used', to, tree.kids, copy, TOP_LEVEL)
    ensures Pagemap(mem', used', to, Branch(ROOT_FLAGS, to, copy))
    ensures Twin(mem', tree, Branch(ROOT_FLAGS, to, copy))
  {
    var tree' := Branch(ROOT_FLAGS, to, copy);
    forall i | 0 <= i < |copy| ensures Live(copy[i]) {
      TwinLive(mem', tree.kids[i], copy[i]);
    }
    assert Holds(mem', tree', TOP_LEVEL);
  }

  lemma {:induction false} TwinLive(mem: Memory, a: Node, b: Node)
    requires Twin(mem, a, b) && Live(a)
    ensures Live(b)
    decreases a
  {
    if a.Branch? {
      forall i | 0 <= i < |b.kids| ensures Live(b.kids[i]) {
        TwinLive(mem, a.kids[i], b.kids[i]);
      }
    }
  }

  lemma PagemapIsSource(mem: Memory, used: set<nat>, tree: Node)
    requires tree.Branch? && Pagemap(mem, used, tree.frame, tree)
    ensures Source(mem, used, tree.frame, tree.kids, TOP_LEVEL)
    ensures Doomed(mem, used, tree.frame, tree.kids, TOP_LEVEL)
  {
    forall i | 0 <= i < |tree.kids| ensures Sound(mem, used, tree.kids[i], TOP_LEVEL - 1) {
      KidIn(tree.kids, |tree.kids|, i);
    }
  }

  /** What an entry of a table contributes to its frames. */
  lemma CountedEntry(mem: Memory, used: set<nat>, kid: Node, level: nat)
    requires 1 <= level <= TOP_LEVEL && Sound(mem, used, kid, level - 1)
    ensures EntryOf(kid) == ZERO ==> Size(kid) == 0
    ensures EntryOf(kid) != ZERO ==> if level == 1 then Size(kid) == 1 else
              && kid.Branch? && kid.frame == EntryOf(kid).index && Size(kid) == 1 + KidSize(kid.kids, |kid.kids|)
              && Source(mem, used, kid.frame, kid.kids, level - 1)
  {
    if EntryOf(kid) != ZERO && level > 1 {
      forall i | 0 <= i < |kid.kids| ensures Sound(mem, used, kid.kids[i], level - 2) {
        KidIn(kid.kids, |kid.kids|, i);
      }
    }
  }

  ghost function With(trees: map<nat, Node>, root: nat, tree: Node): map<nat, Node> {
    trees[root := tree]
  }

  lemma RootHasFrame(mem: Memory, used: set<nat>, trees: map<nat, Node>, root: nat)
    requires Separate(mem, used, trees) && root in trees
    ensures Pagemap(mem, used, root, trees[root]) && Size(trees[root]) > 0
  {
  }

  lemma FramesInUse(mem: Memory, used: set<nat>, trees: map<nat, Node>, root: nat)
    requires Separate(mem, used, trees) && root in trees
    ensures Frames(trees[root]) <= used
  {
    RootHasFrame(mem, used, trees, root);
  }

  lemma WithTwice(trees: map<nat, Node>, root: nat, a: Node, b: Node)
    ensures With(With(trees, root, a), root, b) == With(trees, root, b)
  {
  }

  /** The upper half of table `to` is that of table `from` of another memory. */
  ghost predicate KernelHalf(mem: Memory, from: nat, mem': Memory, to: nat) {
    && IsTable(mem, from) && IsTable(mem', to)
    && forall i :: LOWER_HALF <= i < ENTRIES ==> mem'[to].entries[i] == mem[from].entries[i]
  }

  /** Pagemap `to` is new, the twin of `root`, and lies wholly in frames that were free; nothing else changed. */
  ghost predicate ForkedSpace(mem: Memory, mem': Memory, used: set<nat>, used': set<nat>,
                              trees: map<nat, Node>, trees': map<nat, Node>, root: nat, to: nat) {
    && root in trees && to !in trees && to in trees' && trees' == With(trees, to, trees'[to])
    && Twin(mem', trees[root], trees'[to])
    && Taken(used, used', Frames(trees'[to])) && OnlyIn(mem, mem', Frames(trees'[to]))
  }

  /** Exactly the frames of pagemap `root` were returned; its kernel half and every other frame in use are untouched. */
  ghost predicate DroppedSpace(mem: Memory, mem': Memory, used: set<nat>, used': set<nat>,
                               trees: map<nat, Node>, trees': map<nat, Node>, root: nat) {
    && root in trees && trees' == trees - {root}
    && used' == used - Frames(trees[root])
    && OnlyIn(mem, mem', Frames(trees[root])) && KernelHalf(mem, root, mem', root)
  }

  lemma ForkedRoot(mem: Memory, mem': Memory, used: set<nat>, used': set<nat>, trees: map<nat, Node>,
                   trees': map<nat, Node>, root: nat, to: nat)
    requires ForkedSpace(mem, mem', used, used', trees, trees', root, to)
    ensures to in trees'
  {
  }

  /** fork and then the child's reaping: the allocator and every address space are back where they were. */
  lemma CloneThenDelete(mem: Memory, mem1: Memory, mem2: Memory, used: set<nat>, used1: set<nat>, used2: set<nat>,
                        trees: map<nat, Node>, trees1: map<nat, Node>, trees2: map<nat, Node>, root: nat, to: nat)
    requires ForkedSpace(mem, mem1, used, used1, trees, trees1, root, to)
    requires DroppedSpace(mem1, mem2, used1, used2, trees1, trees2, to)
    ensures used2 == used && trees2 == trees
    ensures forall f :: f in used && f in mem ==> f in mem2 && mem2[f] == mem[f]
  {
  }

  /** Mapping an unmapped page and unmapping it again restores every translation. */
  lemma UnmapUndoesMap(mem: Memory, mem1: Memory, mem2: Memory, used: set<nat>, used1: set<nat>,
                       tree: Node, tree1: Node, tree2: Node, page: nat, e: Entry)
    requires page !in Space(tree)
    requires MappedOne(mem, mem1, used, used1, tree, tree1, page, e)
    requires UnmappedOne(mem1, mem2, used1, tree1, tree2, page)
    ensures Space(tree2) == Space(tree) && PagesKept(mem, mem2, used)
  {
  }

  lemma MappedIsMapped(mem: Memory, mem': Memory, used: set<nat>, used': set<nat>, tree: Node, tree': Node, page: nat,
                       e: Entry)
    requires MappedOne(mem, mem', used, used', tree, tree', page, e)
    ensures page in Space(tree')
  {
  }

  /** Between vmm_create_new_pagemap and the recursive walk. */
  lemma BeforeClone(mem: Memory, mem': Memory, used: set<nat>, used': set<nat>, trees: map<nat, Node>, root: nat, to: nat)
    requires Separate(mem, used, trees) && root in trees && Taken(used, used', {to}) && OnlyIn(mem, mem', {to})
    requires IsTable(mem', to) && forall i :: 0 <= i < LOWER_HALF ==> mem'[to].entries[i] == ZERO
    ensures Pagemap(mem', used', root, trees[root])
    ensures Source(mem', used', root, trees[root].kids, TOP_LEVEL)
    ensures Target(mem', used', to, root, trees[root].kids, TOP_LEVEL)
  {
    var tree := trees[root];
    assert Pagemap(mem, used, root, tree);
    AgreeOutside(mem, mem', {to}, Frames(tree));
    PagemapFrame(mem, mem', used, used', root, tree);
    PagemapIsSource(mem', used', tree);
  }

  /** After the walk: one more pagemap, the twin of its source, all of it in frames that were free. */
  lemma AfterClone(mem: Memory, mem': Memory, mem'': Memory, used: set<nat>, used': set<nat>, used'': set<nat>,
                   trees: map<nat, Node>, root: nat, to: nat, kids: seq<Node>, from: nat)
    requires Separate(mem, used, trees) && root in trees && Taken(used, used', {to}) && OnlyIn(mem, mem', {to})
    requires KernelHalf(mem, from, mem', to)
    requires Pagemap(mem', used', root, trees[root]) && |kids| == |trees[root].kids|
    requires Cloned(mem', mem'', used', used'', to, trees[root].kids, kids, TOP_LEVEL)
    ensures var trees' := With(trees, to, Branch(ROOT_FLAGS, to, kids));
            Separate(mem'', used'', trees') && ForkedSpace(mem, mem'', used, used'', trees, trees', root, to)
    ensures KernelHalf(mem, from, mem'', to) && used <= used'' && mem.Keys <= mem''.Keys
  {
    var tree' := Branch(ROOT_FLAGS, to, kids);
    ClonedPagemap(mem', mem'', used', used'', trees[root], to, kids);
    TakenTrans(used, used', used'', {to}, KidFrames(kids, |kids|));
    OnlyInTrans(mem, mem', mem'', {to}, Frames(tree'), Frames(tree'));
    PagemapAdded(mem, mem'', used, used'', trees, tree');
  }

  /** Returning exactly the frames of one pagemap leaves the others as they were. */
  lemma PagemapRemoved(mem: Memory, mem': Memory, used: set<nat>, trees: map<nat, Node>, root: nat)
    requires Separate(mem, used, trees) && root in trees && OnlyIn(mem, mem', Frames(trees[root]))
    ensures Separate(mem', used - Frames(trees[root]), trees - {root})
  {
    forall r | r in trees && r != root ensures Pagemap(mem', used - Frames(trees[root]), r, trees[r]) {
      AgreeOutside(mem, mem', Frames(trees[root]), Frames(trees[r]));
      PagemapFrame(mem, mem', used, used - Frames(trees[root]), r, trees[r]);
    }
  }

  // ---- What a clone means for the process that runs in it.

  /** A twin translates the same paths with the same flags to pages with the same contents. */
  lemma {:induction false} TwinTranslates(mem: Memory, a: Node, b: Node, path: seq<nat>)
    requires Twin(mem, a, b)
    ensures Lookup(a, path).Some? <==> Lookup(b, path).Some?
    ensures Lookup(a, path).Some? ==>
              var (e, e') := (Lookup(a, path).value, Lookup(b, path).value);
              e'.flags == e.flags && e.index in mem && e'.index in mem && mem[e'.index] == mem[e.index]
    decreases |path|
  {
    if path != [] && a.Branch? && path[0] < |a.kids| {
      TwinTranslates(mem, a.kids[path[0]], b.kids[path[0]], path[1..]);
    }
  }

  /** Two paths of a pagemap never translate to the same frame. */
  lemma {:induction false} TranslationInjective(node: Node, p: seq<nat>, q: seq<nat>)
    requires Distinct(node) && |p| == |q| && p != q && Lookup(node, p).Some? && Lookup(node, q).Some?
    ensures Lookup(node, p).value.index != Lookup(node, q).value.index
    decreases |p|
  {
    LeafIsNoTable(node.kids[p[0]], p[1..]);
    LeafIsNoTable(node.kids[q[0]], q[1..]);
    if p[0] == q[0] {
      assert p == [p[0]] + p[1..] && q == [q[0]] + q[1..];
      TranslationInjective(node.kids[p[0]], p[1..], q[1..]);
    } else {
      KidsApart(node.kids, p[0], q[0]);
    }
  }

  /** Each page of an address space has its own frame, in use and not a table. */
  lemma OwnFrames(mem: Memory, used: set<nat>, tree: Node, page: nat)
    requires TreeOk(mem, used, tree) && page in Space(tree)
    ensures Space(tree)[page].index in used && Space(tree)[page].index in Frames(tree) - Tables(tree)
    ensures Space(tree)[page].flags.present
    ensures forall p :: p in Space(tree) && p != page ==> Space(tree)[p].index != Space(tree)[page].index
  {
    LeafIsNoTable(tree, PathOf(page));
    LeafPresent(mem, tree, PathOf(page), TOP_LEVEL);
    forall p | p in Space(tree) && p != page ensures Space(tree)[p].index != Space(tree)[page].index {
      PathsDiffer(p, page);
      TranslationInjective(tree, PathOf(p), PathOf(page));
    }
  }

  lemma {:induction false} LeafPresent(mem: Memory, node: Node, path: seq<nat>, level: nat)
    requires Holds(mem, node, level) && Lookup(node, path).Some?
    ensures Lookup(node, path).value.flags.present && Lookup(node, path).value.index in mem
    decreases |path|
  {
    if path != [] {
      LeafPresent(mem, node.kids[path[0]], path[1..], level - 1);
    }
  }

  /** A clone maps the same pages. */
  lemma ClonePages(mem: Memory, a: Node, b: Node)
    requires Twin(mem, a, b)
    ensures Space(b).Keys == Space(a).Keys
  {
    hide Twin;
    forall p: nat | p < LOWER_PAGES ensures p in Space(b) <==> p in Space(a) {
      TwinTranslates(mem, a, b, PathOf(p));
    }
  }

  /** One page of a clone: same flags and contents, in another frame. */
  lemma ClonePage(mem: Memory, a: Node, b: Node, page: nat)
    requires Twin(mem, a, b) && page in Space(a) && page in Space(b)
    ensures Space(b)[page].flags == Space(a)[page].flags
    ensures var (f, g) := (Space(a)[page].index, Space(b)[page].index); f in mem && g in mem && mem[g] == mem[f]
  {
    hide Twin;
    TwinTranslates(mem, a, b, PathOf(page));
  }

  /** The child's address space after fork: the same pages with the same flags, each on a frame of its own that was
      free before and holds what the parent's page held; the parent's pages hold what they held. */
  lemma CloneMeaning(mem: Memory, mem': Memory, used: set<nat>, used': set<nat>, trees: map<nat, Node>,
                     trees': map<nat, Node>, root: nat, to: nat, page: nat)
    requires Separate(mem, used, trees) && Separate(mem', used', trees')
    requires ForkedSpace(mem, mem', used, used', trees, trees', root, to)
    ensures Space(trees'[to]).Keys == Space(trees[root]).Keys && trees'[root] == trees[root]
    ensures page in Space(trees[root]) ==>
              var (e, e') := (Space(trees[root])[page], Space(trees'[to])[page]);
              && e'.flags == e.flags && e'.index !in used && e'.index in used'
              && e.index in mem && e'.index in mem' && mem'[e'.index] == mem[e.index] && mem'[e.index] == mem[e.index]
              && forall p :: p in Space(trees'[to]) && p != page ==> Space(trees'[to])[p].index != e'.index
  {
    hide Twin, Space, Frames, TreeOk;
    ClonePages(mem', trees[root], trees'[to]);
    RootHasFrame(mem', used', trees', to);
    RootHasFrame(mem, used, trees, root);
    if page in Space(trees[root]) {
      ClonePage(mem', trees[root], trees'[to], page);
      OwnFrames(mem', used', trees'[to], page);
      OwnFrames(mem, used, trees[root], page);
      PageInMemory(mem, used, trees[root], page);
    }
  }

  lemma PageInMemory(mem: Memory, used: set<nat>, tree: Node, page: nat)
    requires TreeOk(mem, used, tree) && page in Space(tree)
    ensures Space(tree)[page].index in mem
  {
    LeafPresent(mem, tree, PathOf(page), TOP_LEVEL);
  }

  // ---- Changing one pagemap.

  lemma OneSpaceRemapped(mem: Memory, mem': Memory, used: set<nat>, used': set<nat>, trees: map<nat, Node>, root: nat,
                         tree': Node, page: nat, e: Entry)
    requires Separate(mem, used, trees) && root in trees && Pagemap(mem', used', root, tree')
    requires MappedOne(mem, mem', used, used', trees[root], tree', page, e)
    requires forall r :: r in trees ==> e.index !in Frames(trees[r])
    ensures Separate(mem', used', With(trees, root, tree'))
  {
    forall r | r in trees && r != root
      ensures Frames(tree') !! Frames(trees[r]) && Pagemap(mem', used', r, trees[r])
    {
      assert Pagemap(mem, used, r, trees[r]) && Frames(trees[r]) !! Frames(trees[root]);
      AgreeOutside(mem, mem', Frames(trees[root]) + (used' - used), Frames(trees[r]));
      PagemapFrame(mem, mem', used, used', r, trees[r]);
    }
  }

  lemma OneSpaceShrunk(mem: Memory, mem': Memory, used: set<nat>, trees: map<nat, Node>, root: nat, tree': Node,
                       page: nat)
    requires Separate(mem, used, trees) && root in trees && Pagemap(mem', used, root, tree')
    requires UnmappedOne(mem, mem', used, trees[root], tree', page)
    ensures Separate(mem', used, With(trees, root, tree'))
  {
    forall r | r in trees && r != root
      ensures Frames(tree') !! Frames(trees[r]) && Pagemap(mem', used, r, trees[r])
    {
      assert Frames(trees[r]) !! Frames(trees[root]);
      AgreeOutside(mem, mem', Frames(trees[root]), Frames(trees[r]));
      PagemapFrame(mem, mem', used, used, r, trees[r]);
    }
  }

  /** The outcome of vmm_map_page: 0, -1, or the out-of-memory panic. */
  datatype MapResult = Mapped | Refused | Panicked

  class AddressSpaces {
    const pmm: PhysicalMemory
    var mem: Memory
    /** The pagemap cr3 points to. */
    var current: nat
    /** Root frame to lower-half tree, for every pagemap in existence. */
    ghost var trees: map<nat, Node>

    ghost predicate Valid()
      reads this, pmm.bitmap, pmm.bitmap.bytes
    {
      pmm.Valid() && 0 in pmm.Used() && Separate(mem, pmm.Used(), trees) && Range(0, pmm.Frames()) <= mem.Keys
    }

    /** init_vmm: the boot loader's pagemap is in cr3 and the kernel owns no lower half yet. */
    constructor (pmm: PhysicalMemory, mem: Memory, current: nat)
      requires pmm.Valid() && 0 in pmm.Used() && Range(0, pmm.Frames()) <= mem.Keys
      ensures Valid() && this.pmm == pmm && this.mem == mem && this.current == current && trees == map[]
    {
      this.pmm, this.mem, this.current, this.trees := pmm, mem, current, map[];
    }

    /** pmm_alloc_page followed by the memset that clears the page. */
    method AllocFrame() returns (f: nat)
      requires pmm.Valid() && 0 in pmm.Used() && pmm.Free() != {}
      modifies `mem, pmm.bitmap, pmm.bitmap.bytes
      ensures f in old(pmm.Free()) && f != 0
      ensures pmm.Valid() && pmm.Used() == old(pmm.Used()) + {f} && |pmm.Free()| == |old(pmm.Free())| - 1
      ensures mem == old(mem)[f := EmptyTable()]
    {
      var addr := pmm.AllocPage();
      f := addr / PAGE;
      mem := mem[f := EmptyTable()];
      assert pmm.Free() == old(pmm.Free()) - {f};
    }

    method RecursiveClone(cur: nat, to: nat, level: nat, ghost kids: seq<Node>) returns (ghost copy: seq<Node>)
      requires pmm.Valid() && 0 in pmm.Used()
      requires Source(mem, pmm.Used(), cur, kids, level)
      requires Target(mem, pmm.Used(), to, cur, kids, level)
      requires KidSize(kids, |kids|) <= |pmm.Free()|
      modifies `mem, pmm.bitmap, pmm.bitmap.bytes
      ensures pmm.Valid() && |copy| == |kids| && Cloned(old(mem), mem, old(pmm.Used()), pmm.Used(), to, kids, copy, level)
      ensures |pmm.Free()| == |old(pmm.Free())| - KidSize(kids, |kids|)
      decreases level, 2
    {
      hide Cloned, Source, Target;
      copy := [];
      assert 1 <= level <= TOP_LEVEL && |kids| == Limit(level) by { SourceShape(mem, pmm.Used(), cur, kids, level); }
      ClonedNothing(mem, pmm.Used(), to, cur, kids, level);
      ghost var mem0, used0, free0 := mem, pmm.Used(), |pmm.Free()|;
      for i := 0 to Limit(level)
        invariant i == |copy| <= |kids| && pmm.Valid()
        invariant Cloned(mem0, mem, used0, pmm.Used(), to, kids, copy, level)
        invariant |pmm.Free()| == free0 - KidSize(kids, i)
      {
        copy := CloneNext(cur, to, level, i, kids, copy, mem0, used0, free0);
      }
    }

    /** The loop body, seen from the start of the walk over the table. */
    method CloneNext(cur: nat, to: nat, level: nat, i: nat, ghost kids: seq<Node>, ghost copy: seq<Node>,
                     ghost mem0: Memory, ghost used0: set<nat>, ghost free0: nat) returns (ghost copy': seq<Node>)
      requires pmm.Valid() && 0 in used0
      requires Source(mem0, used0, cur, kids, level) && Target(mem0, used0, to, cur, kids, level)
      requires i == |copy| < |kids| && Cloned(mem0, mem, used0, pmm.Used(), to, kids, copy, level)
      requires KidSize(kids, |kids|) <= free0 && |pmm.Free()| == free0 - KidSize(kids, i)
      modifies `mem, pmm.bitmap, pmm.bitmap.bytes
      ensures pmm.Valid() && |copy'| == i + 1 && Cloned(mem0, mem, used0, pmm.Used(), to, kids, copy', level)
      ensures |pmm.Free()| == free0 - KidSize(kids, i + 1)
      decreases level, 1
    {
      KidSizeGrows(kids, i + 1, |kids|);
      NextEntryReady(mem0, mem, used0, pmm.Used(), cur, to, kids, copy, level);
      ghost var mem1, used1 := mem, pmm.Used();
      ghost var c := CloneEntry(cur, to, level, i, kids[i]);
      ClonedSnoc(mem0, mem1, mem, used0, used1, pmm.Used(), to, kids, copy, c, level);
      copy' := copy + [c];
    }

    /** A fresh, cleared page entered into table `to` with the flags of the entry being cloned. */
    method EnterPage(to: nat, i: nat, entry: Entry) returns (f: nat)
      requires pmm.Valid() && 0 in pmm.Used() && pmm.Free() != {}
      requires IsTable(mem, to) && to in pmm.Used() && i < ENTRIES
      modifies `mem, pmm.bitmap, pmm.bitmap.bytes
      ensures pmm.Valid() && f !in old(pmm.Used()) && f != 0 && f != to
      ensures pmm.Used() == old(pmm.Used()) + {f} && |pmm.Free()| == |old(pmm.Free())| - 1
      ensures mem == Entered(old(mem), to, i, entry, f)
    {
      f := AllocFrame();
      mem := mem[to := Table(mem[to].entries[i := entry.(index := f)])];
    }

    /** One turn of the loop of recursive_pagemap_clone. */
    method CloneEntry(cur: nat, to: nat, level: nat, i: nat, ghost kid: Node) returns (ghost c: Node)
      requires pmm.Valid() && 0 in pmm.Used()
      requires 1 <= level <= TOP_LEVEL && i < Limit(level)
      requires IsTable(mem, cur) && cur in pmm.Used() && mem[cur].entries[i] == EntryOf(kid)
      requires Sound(mem, pmm.Used(), kid, level - 1)
      requires IsTable(mem, to) && to in pmm.Used() && to != cur && to !in Frames(kid) && mem[to].entries[i] == ZERO
      requires Size(kid) <= |pmm.Free()|
      modifies `mem, pmm.bitmap, pmm.bitmap.bytes
      ensures pmm.Valid() && EntryCloned(old(mem), mem, old(pmm.Used()), pmm.Used(), to, i, kid, c, level)
      ensures |pmm.Free()| == |old(pmm.Free())| - Size(kid)
      decreases level, 0
    {
      hide EntryCloned, Twin;
      ghost var mem0, used0 := mem, pmm.Used();
      var entry := mem[cur].entries[i];
      if entry == ZERO {
        c := Absent;
        AbsentDone(mem, pmm.Used(), to, i, kid, level);
        return;
      }
      // The two assertions of the source.
      assert entry.flags.present;
      assert !entry.flags.huge;
      var f := EnterPage(to, i, entry);
      if level != 1 {
        assert kid.Branch? && Size(kid) == 1 + KidSize(kid.kids, |kid.kids|);
        ReadyBelow(mem0, used0, to, i, kid, f, level);
        ghost var sub := RecursiveClone(entry.index, f, level - 1, kid.kids);
        c := Branch(kid.flags, f, sub);
        BranchDone(mem0, mem, used0, pmm.Used(), to, i, kid, f, sub, level);
        return;
      }
      assert kid.Leaf?;
      LeafDone(mem0, used0, to, i, kid, f, level);
      mem := mem[f := mem[entry.index]];
      c := Leaf(kid.flags, f);
    }

    method RecursiveDelete(cur: nat, level: nat, ghost kids: seq<Node>)
      requires pmm.Valid() && Doomed(mem, pmm.Used(), cur, kids, level)
      modifies `mem, pmm.bitmap, pmm.bitmap.bytes
      ensures pmm.Valid() && Deleted(old(mem), mem, old(pmm.Used()), pmm.Used(), cur, kids, |kids|)
      decreases level, 2
    {
      if level == 0 {
        return;
      }
      ghost var mem0, used0 := mem, pmm.Used();
      for i := 0 to Limit(level)
        invariant pmm.Valid() && Deleted(mem0, mem, used0, pmm.Used(), cur, kids, i)
      {
        DeleteNext(cur, level, i, kids, mem0, used0);
      }
    }

    method DeleteNext(cur: nat, level: nat, i: nat, ghost kids: seq<Node>, ghost mem0: Memory, ghost used0: set<nat>)
      requires pmm.Valid() && level > 0 && i < |kids| && Doomed(mem0, used0, cur, kids, level)
      requires Deleted(mem0, mem, used0, pmm.Used(), cur, kids, i)
      modifies `mem, pmm.bitmap, pmm.bitmap.bytes
      ensures pmm.Valid() && Deleted(mem0, mem, used0, pmm.Used(), cur, kids, i + 1)
      decreases level, 1
    {
      NextStillHolds(mem0, mem, used0, pmm.Used(), cur, kids, i, level);
      ghost var mem1, used1 := mem, pmm.Used();
      DeleteEntry(cur, level, i, kids[i]);
      DeletedSnoc(mem0, mem1, mem, used0, used1, pmm.Used(), cur, kids, i);
    }

    /** One turn of the loop of recursive_pagemap_delete, for entries that are no huge pages. */
    method DeleteEntry(cur: nat, level: nat, i: nat, ghost kid: Node)
      requires pmm.Valid() && 1 <= level <= TOP_LEVEL && i < Limit(level)
      requires IsTable(mem, cur) && cur !in Frames(kid) && mem[cur].entries[i] == EntryOf(kid)
      requires Holds(mem, kid, level - 1) && Distinct(kid) && Frames(kid) <= pmm.Used()
      modifies `mem, pmm.bitmap, pmm.bitmap.bytes
      ensures pmm.Valid() && EntryDeleted(old(mem), mem, old(pmm.Used()), pmm.Used(), cur, i, kid)
      decreases level, 0
    {
      var entry := mem[cur].entries[i];
      if entry == ZERO {
        assert mem[cur].entries[i := ZERO] == mem[cur].entries;
        return;
      }
      if !entry.flags.present {
        mem := mem[cur := Table(mem[cur].entries[i := ZERO])];
        return;
      }
      var next := entry.index;
      ghost var below := if level == 1 then [] else kid.kids;
      KidDoomed(mem, pmm.Used(), kid, level);
      RecursiveDelete(next, level - 1, below);
      var freed := pmm.FreePage(next * PAGE);
      assert IsTable(mem, cur);
      mem := mem[cur := Table(mem[cur].entries[i := ZERO])];
    }

    /** The body of vmm_create_new_pagemap: the kernel half of the current pagemap, an empty lower half; false is the
        panic for want of a frame. */
    method NewRoot() returns (ok: bool, root: nat)
      requires pmm.Valid() && 0 in pmm.Used() && IsTable(mem, current)
      modifies `mem, pmm.bitmap, pmm.bitmap.bytes
      ensures pmm.Valid() && (ok <==> old(pmm.Free()) != {})
      ensures !ok ==> mem == old(mem) && pmm.Used() == old(pmm.Used())
      ensures ok ==> root in old(pmm.Free()) && Taken(old(pmm.Used()), pmm.Used(), {root})
      ensures ok ==> |pmm.Free()| == |old(pmm.Free())| - 1
      ensures ok ==> OnlyIn(old(mem), mem, {root}) && KernelHalf(old(mem), current, mem, root)
      ensures ok ==> forall i :: 0 <= i < LOWER_HALF ==> mem[root].entries[i] == ZERO
    {
      var addr := pmm.AllocPage();
      if addr == 0 {
        return false, 0;
      }
      root := addr / PAGE;
      assert pmm.Free() == old(pmm.Free()) - {root};
      mem := mem[root := FreshRoot(mem[current].entries)];
      return true, root;
    }

    /** vmm_create_new_pagemap */
    method CreateNewPagemap() returns (ok: bool, root: nat)
      requires Valid() && IsTable(mem, current)
      modifies `mem, `trees, pmm.bitmap, pmm.bitmap.bytes
      ensures Valid() && (ok <==> old(pmm.Free()) != {})
      ensures !ok ==> mem == old(mem) && trees == old(trees) && pmm.Used() == old(pmm.Used())
      ensures ok ==> root in old(pmm.Free()) && root !in old(trees)
      ensures ok ==> trees == With(old(trees), root, Branch(ROOT_FLAGS, root, Blank()))
      ensures ok ==> Taken(old(pmm.Used()), pmm.Used(), {root}) && |pmm.Free()| == |old(pmm.Free())| - 1
      ensures ok ==> OnlyIn(old(mem), mem, {root}) && KernelHalf(old(mem), current, mem, root)
    {
      hide Separate, Pagemap, Frames, KernelHalf;
      ghost var mem0, used0, trees0 := mem, pmm.Used(), trees;
      ok, root := NewRoot();
      if !ok {
        return;
      }
      BlankPagemap(mem, pmm.Used(), root);
      PagemapAdded(mem0, mem, used0, pmm.Used(), trees0, Branch(ROOT_FLAGS, root, Blank()));
      trees := With(trees0, root, Branch(ROOT_FLAGS, root, Blank()));
    }

    /** How many frames hang below a table. */
    method CountFrames(cur: nat, level: nat, ghost kids: seq<Node>) returns (n: nat)
      requires Source(mem, pmm.Used(), cur, kids, level)
      ensures n == KidSize(kids, |kids|)
      decreases level
    {
      n := 0;
      for i := 0 to Limit(level)
        invariant n == KidSize(kids, i)
      {
        var entry := mem[cur].entries[i];
        CountedEntry(mem, pmm.Used(), kids[i], level);
        if entry != ZERO {
          n := n + 1;
          if level > 1 {
            var below := CountFrames(entry.index, level - 1, kids[i].kids);
            n := n + below;
          }
        }
      }
    }

    /** vmm_clone_pagemap. The source never checks the allocator here, so enough frames must be free. */
    method ClonePagemap(root: nat) returns (copy: nat)
      requires Valid() && root in trees && IsTable(mem, current)
      requires Size(trees[root]) <= |pmm.Free()|
      modifies `mem, `trees, pmm.bitmap, pmm.bitmap.bytes
      ensures Valid() && ForkedSpace(old(mem), mem, old(pmm.Used()), pmm.Used(), old(trees), trees, root, copy)
      ensures KernelHalf(old(mem), current, mem, copy)
    {
      hide Separate, ForkedSpace;
      ghost var mem0, used0, trees0 := mem, pmm.Used(), trees;
      RootHasFrame(mem, pmm.Used(), trees, root);
      var ok;
      ok, copy := NewRoot();
      ghost var tree := FillClone(root, copy, mem0, used0, trees0, current);
      trees := With(trees0, copy, tree);
    }

    /** The recursive walk of vmm_clone_pagemap, seen from before the new root was created. */
    method FillClone(root: nat, to: nat, ghost mem0: Memory, ghost used0: set<nat>, ghost trees0: map<nat, Node>,
                     ghost from: nat) returns (ghost tree: Node)
      requires pmm.Valid() && 0 in used0 && root in trees0 && Separate(mem0, used0, trees0)
      requires Taken(used0, pmm.Used(), {to}) && OnlyIn(mem0, mem, {to})
      requires KernelHalf(mem0, from, mem, to) && forall i :: 0 <= i < LOWER_HALF ==> mem[to].entries[i] == ZERO
      requires Size(trees0[root]) - 1 <= |pmm.Free()|
      modifies `mem, pmm.bitmap, pmm.bitmap.bytes
      ensures pmm.Valid() && used0 <= pmm.Used() && mem0.Keys <= mem.Keys
      ensures Separate(mem, pmm.Used(), With(trees0, to, tree))
      ensures ForkedSpace(mem0, mem, used0, pmm.Used(), trees0, With(trees0, to, tree), root, to)
      ensures KernelHalf(mem0, from, mem, to)
    {
      hide Separate, ForkedSpace, Source, Target, Cloned;
      ghost var mem1, used1 := mem, pmm.Used();
      BeforeClone(mem0, mem1, used0, used1, trees0, root, to);
      ghost var kids := RecursiveClone(root, to, TOP_LEVEL, trees0[root].kids);
      AfterClone(mem0, mem1, mem, used0, used1, pmm.Used(), trees0, root, to, kids, from);
      tree := Branch(ROOT_FLAGS, to, kids);
    }

    /** vmm_delete_pagemap */
    method DeletePagemap(root: nat)
      requires Valid() && root in trees
      modifies `mem, `trees, pmm.bitmap, pmm.bitmap.bytes
      ensures Valid() && DroppedSpace(old(mem), mem, old(pmm.Used()), pmm.Used(), old(trees), trees, root)
    {
      ghost var mem0, used0, tree := mem, pmm.Used(), trees[root];
      assert Pagemap(mem0, used0, root, tree);
      PagemapIsSource(mem, pmm.Used(), tree);
      RecursiveDelete(root, TOP_LEVEL, tree.kids);
      var freed := pmm.FreePage(root * PAGE);
      assert pmm.Used() == used0 - Frames(tree);
      PagemapRemoved(mem0, mem, used0, trees, root);
      trees := trees - {root};
    }

    /** vmm_clone_pagemap and then vmm_delete_pagemap of the clone: the allocator's bitmap is back where it was. */
    method CloneAndDelete(root: nat)
      requires Valid() && root in trees && IsTable(mem, current) && Size(trees[root]) <= |pmm.Free()|
      modifies `mem, `trees, pmm.bitmap, pmm.bitmap.bytes
      ensures Valid() && pmm.Used() == old(pmm.Used()) && trees == old(trees)
      ensures forall f :: f in old(pmm.Used()) && f in old(mem) ==> f in mem && mem[f] == old(mem)[f]
    {
      hide Separate, ForkedSpace, DroppedSpace, KernelHalf;
      ghost var mem0, used0, trees0 := mem, pmm.Used(), trees;
      var copy := ClonePagemap(root);
      ForkedRoot(mem0, mem, used0, pmm.Used(), trees0, trees, root, copy);
      ghost var mem1, used1, trees1 := mem, pmm.Used(), trees;
      DeletePagemap(copy);
      CloneThenDelete(mem0, mem1, mem, used0, used1, pmm.Used(), trees0, trees1, trees, root, copy);
    }

    /** Setting the user bit of an entry that leads to a table: it is set already, so nothing changes. */
    method SetUserAccess(cur: nat, idx: nat)
      requires IsTable(mem, cur) && idx < ENTRIES && mem[cur].entries[idx].flags.user
      modifies `mem
      ensures mem == old(mem)
    {
      var entry := mem[cur].entries[idx];
      var entry' := entry.(flags := entry.flags.(user := true));
      assert mem[cur].entries[idx := entry'] == mem[cur].entries;
      mem := mem[cur := Table(mem[cur].entries[idx := entry'])];
    }

    /** One turn of the loop of vmm_map_page: from a table to the next one, allocating it if need be. */
    method Descend(cur: nat, idx: nat, user: bool, ghost tree: Node, ghost prefix: seq<nat>)
      returns (ok: bool, next: nat, ghost tree': Node)
      requires pmm.Valid() && 0 in pmm.Used() && TreeOk(mem, pmm.Used(), tree)
      requires |prefix| < TOP_LEVEL - 1 && Passes(tree, prefix) && At(tree, prefix).Branch?
      requires At(tree, prefix).frame == cur && idx < |At(tree, prefix).kids|
      modifies `mem, pmm.bitmap, pmm.bitmap.bytes
      ensures pmm.Valid() && 0 in pmm.Used() && (!ok ==> old(pmm.Free()) == {} && !At(tree, prefix).kids[idx].Branch?)
      ensures ok ==> Descended(old(mem), mem, old(pmm.Used()), pmm.Used(), tree, tree', prefix, idx, next)
      ensures ok ==> |pmm.Free()| == |old(pmm.Free())| - if At(tree, prefix).kids[idx].Branch? then 0 else 1
    {
      hide TablesAdded, HasTable, Holds, Live, Distinct, SameTranslation;
      StandingAt(mem, pmm.Used(), tree, prefix, idx);
      EntryLeadsOn(mem, At(tree, prefix).kids[idx], TOP_LEVEL - |prefix| - 1);
      tree' := tree;
      if mem[cur].entries[idx] == ZERO {
        var addr := pmm.AllocPage();
        if addr == 0 {
          return false, 0, tree;
        }
        mem := mem[addr / PAGE := EmptyTable()];
        mem := mem[cur := Table(mem[cur].entries[idx := Entry(TABLE_FLAGS, addr / PAGE)])];
        assert pmm.Free() == old(pmm.Free()) - {addr / PAGE};
        tree' := TableAdded(old(mem), mem, old(pmm.Used()), pmm.Used(), tree, prefix, idx, addr / PAGE);
      } else {
        TableAtPath(tree, prefix + [idx]);
        TablesThere(tree, prefix + [idx]);
        GrewNothing(mem, pmm.Used(), tree);
      }
      if user {
        SetUserAccess(cur, idx);
      }
      ok, next := true, mem[cur].entries[idx].index;
    }

    /** vmm_map_page for a lower-half page. The page it maps belongs to the caller, not to a pagemap. */
    method MapPage(root: nat, page: nat, frame: nat, override: bool, writable: bool, user: bool)
      returns (result: MapResult)
      requires Valid() && root in trees && page < LOWER_PAGES
      requires frame in pmm.Used() && frame != 0 && forall r :: r in trees ==> frame !in Frames(trees[r])
      modifies `mem, `trees, pmm.bitmap, pmm.bitmap.bytes
      // Out of memory exactly when fewer frames are free than tables are missing on the way.
      ensures result == Panicked <==> |old(pmm.Free())| < Missing(old(trees)[root], PathOf(page))
      // Refused exactly when the page is mapped and overriding was not asked for; then nothing at all changes.
      ensures result == Refused <==> !override && page in Space(old(trees)[root])
      ensures result == Refused ==> mem == old(mem) && trees == old(trees) && pmm.Used() == old(pmm.Used())
      ensures result != Panicked ==> Valid() && root in trees && trees == With(old(trees), root, trees[root])
      ensures result != Panicked ==> old(pmm.Used()) <= pmm.Used()
      ensures result != Panicked ==> |pmm.Free()| == |old(pmm.Free())| - Missing(old(trees)[root], PathOf(page))
      ensures result == Mapped ==>
                MappedOne(old(mem), mem, old(pmm.Used()), pmm.Used(), old(trees)[root], trees[root], page,
                          Entry(LeafFlags(writable, user), frame))
    {
      hide Separate, Space, Missing, Frames;
      ghost var trees0 := trees;
      ghost var tree;
      result, tree := MapEntry(root, page, Entry(LeafFlags(writable, user), frame), override, user, trees0);
      trees := With(trees0, root, tree);
      assert result == Refused ==> trees == trees0;
    }

    /** The body of vmm_map_page: walk, refuse or write. */
    method MapEntry(root: nat, page: nat, e: Entry, override: bool, user: bool, ghost trees0: map<nat, Node>)
      returns (result: MapResult, ghost tree: Node)
      requires pmm.Valid() && 0 in pmm.Used() && Separate(mem, pmm.Used(), trees0) && root in trees0 && page < LOWER_PAGES
      requires e.flags.present && !e.flags.huge && e.index in pmm.Used() && e.index != 0 && e.index in mem
      requires forall r :: r in trees0 ==> e.index !in Frames(trees0[r])
      modifies `mem, pmm.bitmap, pmm.bitmap.bytes
      ensures result == Panicked <==> |old(pmm.Free())| < Missing(trees0[root], PathOf(page))
      ensures result == Refused <==> !override && page in Space(trees0[root])
      ensures result == Refused ==> mem == old(mem) && pmm.Used() == old(pmm.Used()) && tree == trees0[root]
      ensures pmm.Valid() && 0 in pmm.Used()
      ensures result != Panicked ==> |pmm.Free()| == |old(pmm.Free())| - Missing(trees0[root], PathOf(page))
      ensures result == Mapped ==>
                Separate(mem, pmm.Used(), With(trees0, root, tree)) &&
                MappedOne(old(mem), mem, old(pmm.Used()), pmm.Used(), trees0[root], tree, page, e)
    {
      hide MappedOne, Space, Missing, Frames, Walking;
      ghost var mem0, used0, tree0 := mem, pmm.Used(), trees0[root];
      assert Pagemap(mem, pmm.Used(), root, tree0);
      var ok, cur;
      ok, cur, tree := Locate(root, page, user, tree0);
      if !ok {
        return Panicked, tree;
      }
      if !override && mem[cur].entries[PathOf(page)[3]] != ZERO {
        return Refused, tree;
      }
      tree := WriteLeaf(root, cur, page, e, mem0, used0, trees0, tree);
      return Mapped, tree;
    }

    /** The walk, and what it says about the page's own entry. */
    method Locate(root: nat, page: nat, user: bool, ghost tree0: Node)
      returns (ok: bool, cur: nat, ghost tree: Node)
      requires pmm.Valid() && 0 in pmm.Used() && TreeOk(mem, pmm.Used(), tree0) && tree0.frame == root
      requires page < LOWER_PAGES
      modifies `mem, pmm.bitmap, pmm.bitmap.bytes
      ensures pmm.Valid() && 0 in pmm.Used() && LowerPath(PathOf(page))
      ensures ok <==> |old(pmm.Free())| >= Missing(tree0, PathOf(page))
      ensures ok ==> |pmm.Free()| == |old(pmm.Free())| - Missing(tree0, PathOf(page))
      ensures ok ==> Walking(old(mem), mem, old(pmm.Used()), pmm.Used(), tree0, tree, PathOf(page), 3, cur)
      ensures ok ==> IsTable(mem, cur) && (mem[cur].entries[PathOf(page)[3]] != ZERO <==> page in Space(tree0))
      ensures page in Space(tree0) ==> ok && mem == old(mem) && pmm.Used() == old(pmm.Used()) && tree == tree0
    {
      ghost var mem0, used0 := mem, pmm.Used();
      var path := PathOf(page);
      PathsDiffer(page, page);
      ok, cur, tree := WalkDown(root, path, user, tree0);
      MappedNeedsTables(tree0, path);
      if ok {
        LastTable(mem0, mem, used0, pmm.Used(), tree0, tree, path, cur);
      }
    }

    /** The write of vmm_map_page's leaf entry, seen from the start of the call. */
    method WriteLeaf(root: nat, cur: nat, page: nat, e: Entry, ghost mem0: Memory, ghost used0: set<nat>,
                     ghost trees0: map<nat, Node>, ghost tree: Node) returns (ghost tree': Node)
      requires Separate(mem0, used0, trees0) && root in trees0 && page < LOWER_PAGES && LowerPath(PathOf(page))
      requires Walking(mem0, mem, used0, pmm.Used(), trees0[root], tree, PathOf(page), 3, cur)
      requires e.flags.present && !e.flags.huge && e.index in used0 && e.index != 0 && e.index in mem0
      requires forall r :: r in trees0 ==> e.index !in Frames(trees0[r])
      requires IsTable(mem, cur)
      modifies `mem
      ensures Separate(mem, pmm.Used(), With(trees0, root, tree'))
      ensures MappedOne(mem0, mem, used0, pmm.Used(), trees0[root], tree', page, e)
    {
      ghost var mem1 := mem;
      mem := mem[cur := Table(mem[cur].entries[PathOf(page)[3] := e])];
      tree' := LeafWritten(mem0, mem1, mem, used0, pmm.Used(), trees0[root], tree, page, cur, Leaf(e.flags, e.index));
      OneSpaceRemapped(mem0, mem, used0, pmm.Used(), trees0, root, tree', page, e);
    }

    /** The loop of vmm_map_page, from the root to the last table. */
    method WalkDown(root: nat, path: seq<nat>, user: bool, ghost tree0: Node)
      returns (ok: bool, cur: nat, ghost tree: Node)
      requires pmm.Valid() && 0 in pmm.Used() && TreeOk(mem, pmm.Used(), tree0) && tree0.frame == root
      requires LowerPath(path)
      modifies `mem, pmm.bitmap, pmm.bitmap.bytes
      ensures pmm.Valid() && 0 in pmm.Used()
      ensures ok <==> |old(pmm.Free())| >= Missing(tree0, path)
      ensures ok ==> Walking(old(mem), mem, old(pmm.Used()), pmm.Used(), tree0, tree, path, 3, cur)
      ensures ok ==> |pmm.Free()| == |old(pmm.Free())| - Missing(tree0, path)
    {
      hide Grew, Descended;
      ghost var mem0, used0, free0 := mem, pmm.Used(), |pmm.Free()|;
      tree, cur := tree0, root;
      GrewNothing(mem, pmm.Used(), tree);
      var i := 0;
      assert path[..0] == [] && path[0..] == path;
      while i < 3
        invariant 0 <= i <= 3 && pmm.Valid() && 0 in pmm.Used()
        invariant Walking(mem0, mem, used0, pmm.Used(), tree0, tree, path, i, cur)
        invariant |pmm.Free()| - Missing(At(tree, path[..i]), path[i..]) == free0 - Missing(tree0, path)
      {
        ghost var mem1, used1, tree1, cur1 := mem, pmm.Used(), tree, cur;
        IndexInTable(mem1, used1, tree1, path, i);
        ok, cur, tree := Descend(cur, path[i], user, tree1, path[..i]);
        if !ok {
          return;
        }
        WalkStepped(mem0, mem1, mem, used0, used1, pmm.Used(), tree0, tree1, tree, path, i, cur1, cur);
        i := i + 1;
      }
      ok := true;
    }

    /** vmm_unmap_page for a lower-half page: -1 exactly when it is not mapped. */
    method UnmapPage(root: nat, page: nat) returns (status: int)
      requires Valid() && root in trees && page < LOWER_PAGES
      modifies `mem, `trees
      ensures Valid() && root in trees && trees == With(old(trees), root, trees[root])
      ensures status == if page in Space(old(trees)[root]) then 0 else -1
      ensures status == -1 ==> mem == old(mem) && trees == old(trees)
      ensures status == 0 ==> UnmappedOne(old(mem), mem, pmm.Used(), old(trees)[root], trees[root], page)
    {
      var path := PathOf(page);
      PathsDiffer(page, page);
      ghost var mem0, trees0, tree0 := mem, trees, trees[root];
      assert Pagemap(mem, pmm.Used(), root, tree0);
      assert trees0 == With(trees0, root, tree0);
      var found, cur := FindTable(root, path, tree0);
      if !found || mem[cur].entries[path[3]] == ZERO {
        return -1;
      }
      mem := mem[cur := Table(mem[cur].entries[path[3] := ZERO])];
      ghost var tree := EntryCleared(mem0, mem, pmm.Used(), tree0, page, cur);
      OneSpaceShrunk(mem0, mem, pmm.Used(), trees0, root, tree, page);
      trees := With(trees0, root, tree);
      return 0;
    }

    /** vmm_map_page of an unmapped page and then vmm_unmap_page of it: every translation is back where it was. */
    method MapAndUnmap(root: nat, page: nat, frame: nat, writable: bool, user: bool) returns (done: bool)
      requires Valid() && root in trees && page < LOWER_PAGES && page !in Space(trees[root])
      requires frame in pmm.Used() && frame != 0 && forall r :: r in trees ==> frame !in Frames(trees[r])
      modifies `mem, `trees, pmm.bitmap, pmm.bitmap.bytes
      ensures done <==> |old(pmm.Free())| >= Missing(old(trees)[root], PathOf(page))
      ensures done ==> Valid() && root in trees && Space(trees[root]) == Space(old(trees)[root])
      ensures done ==> PagesKept(old(mem), mem, old(pmm.Used()))
    {
      hide Separate, Space, Missing, Frames, MappedOne, UnmappedOne, PagesKept;
      ghost var mem0, used0, tree0 := mem, pmm.Used(), trees[root];
      var result := MapPage(root, page, frame, false, writable, user);
      if result == Panicked {
        return false;
      }
      ghost var mem1, used1, tree1 := mem, pmm.Used(), trees[root];
      ghost var e := Entry(LeafFlags(writable, user), frame);
      MappedIsMapped(mem0, mem1, used0, used1, tree0, tree1, page, e);
      var status := UnmapPage(root, page);
      UnmapUndoesMap(mem0, mem1, mem, used0, used1, tree0, tree1, trees[root], page, e);
      return true;
    }

    /** The loop of vmm_unmap_page: down to the last table, if all tables are there. */
    method FindTable(root: nat, path: seq<nat>, ghost tree: Node) returns (found: bool, cur: nat)
      requires TreeOk(mem, pmm.Used(), tree) && tree.frame == root && LowerPath(path)
      ensures !found ==> Lookup(tree, path).None?
      ensures found ==> AtLastTable(mem, tree, path, cur)
    {
      cur := root;
      assert path[..0] == [];
      for i := 0 to 3
        invariant Passes(tree, path[..i]) && At(tree, path[..i]).Branch? && At(tree, path[..i]).frame == cur
      {
        IndexInTable(mem, pmm.Used(), tree, path, i);
        StandingAt(mem, pmm.Used(), tree, path[..i], path[i]);
        assert path[..i] + [path[i]] == path[..i + 1];
        if mem[cur].entries[path[i]] == ZERO {
          LookupAfterPut(tree, path[..i + 1], Absent, path);
          return false, cur;
        }
        cur := mem[cur].entries[path[i]].index;
      }
      found := true;
      ReachedLastTable(mem, pmm.Used(), tree, path, cur);
    }
  }
}
