/** How the processor translates an address: the walk of section 4.5 of the Intel SDM, Volume 3A, over memory alone. */
module Translation {
  import opened Machine
  import opened PageTables
  import opened WalkSpec

  /** A page fault, or the frame reached and what user code may do there. */
  datatype Reach = PageFault | Reach(frame: nat, writable: bool, user: bool)

  /** From the table in frame `table` along the indices of `path`; an access right must be granted by every entry. */
  ghost function Translate(mem: Memory, table: nat, path: seq<nat>, writable: bool, user: bool): Reach
    decreases |path|
  {
    if path == [] || !IsTable(mem, table) || path[0] >= ENTRIES then PageFault
    else
      var e := mem[table].entries[path[0]];
      var (w, u) := (writable && e.flags.writable, user && e.flags.user);
      if !e.flags.present then PageFault
      else if |path| == 1 then Reach(e.index, w, u)
      else if e.flags.huge then PageFault
      else Translate(mem, e.index, path[1..], w, u)
  }

  /** The four indices the processor takes from an address: bits 39 to 47, 30 to 38, 21 to 29 and 12 to 20. */
  function Indices(vaddr: nat): seq<nat> {
    [vaddr / 0x80_0000_0000 % 512, vaddr / 0x4000_0000 % 512, vaddr / 0x20_0000 % 512, vaddr / 0x1000 % 512]
  }

  /** What the processor makes of an address, from the table in cr3. */
  ghost function Processor(mem: Memory, root: nat, vaddr: nat): Reach {
    Translate(mem, root, Indices(vaddr), true, true)
  }

  /** The indices the kernel computes for a page are the processor's for every address of it. */
  lemma SameIndices(vaddr: nat)
    requires vaddr < LOWER_PAGES * PAGE
    ensures PathOf(vaddr / PAGE) == Indices(vaddr) && vaddr / PAGE < LOWER_PAGES
  {
    var page := vaddr / PAGE;
    var pd := page / ENTRIES;
    var pdp := pd / ENTRIES;
    var pml4 := pdp / ENTRIES;
    assert Digit(page, 0) == page % ENTRIES && Digit(page, 1) == Digit(pd, 0) == pd % ENTRIES;
    assert Digit(page, 2) == Digit(pd, 1) == Digit(pdp, 0) == pdp % ENTRIES;
    assert Digit(page, 3) == Digit(pd, 2) == Digit(pdp, 1) == Digit(pml4, 0) == pml4 % ENTRIES;
    Shifts(vaddr);
    assert PathOf(page) == [Digit(page, 3), Digit(page, 2), Digit(page, 1), Digit(page, 0)];
  }

  lemma Shifts(x: nat)
    ensures x / 0x1000 / 512 == x / 0x20_0000
    ensures x / 0x20_0000 / 512 == x / 0x4000_0000
    ensures x / 0x4000_0000 / 512 == x / 0x80_0000_0000
  {
  }

  /** What the tree of a pagemap says about a path, as a translation. */
  ghost function Seen(found: Option<Entry>, writable: bool, user: bool): Reach {
    match found
    case None => PageFault
    case Some(e) => Reach(e.index, writable && e.flags.writable, user && e.flags.user)
  }

  /** The walk over memory finds what the tree says; tables on the way withhold no right. */
  lemma {:induction false} WalkAgrees(mem: Memory, node: Node, path: seq<nat>, level: nat, writable: bool, user: bool)
    requires Holds(mem, node, level) && node.Branch? && |path| == level && path[0] < |node.kids|
    requires forall i :: 0 <= i < |path| ==> path[i] < ENTRIES
    requires level <= TOP_LEVEL
    ensures Translate(mem, node.frame, path, writable, user) == Seen(Lookup(node, path), writable, user)
    decreases level
  {
    var kid := node.kids[path[0]];
    assert mem[node.frame].entries[path[0]] == EntryOf(kid) && Holds(mem, kid, level - 1);
    if level > 1 && kid.Branch? {
      WalkAgrees(mem, kid, path[1..], level - 1, writable, user);
    } else if level > 1 {
      assert Lookup(node, path) == Lookup(kid, path[1..]);
    } else {
      assert path[1..] == [];
    }
  }

  /** An address space is what the processor makes of its tables: the same addresses are mapped, to the same frames,
      with the access rights of the leaf entries. */
  lemma SpaceIsTranslation(mem: Memory, used: set<nat>, tree: Node, vaddr: nat)
    requires TreeOk(mem, used, tree) && vaddr < LOWER_PAGES * PAGE
    ensures Processor(mem, tree.frame, vaddr) ==
            if vaddr / PAGE in Space(tree) then
              var e := Space(tree)[vaddr / PAGE]; Reach(e.index, e.flags.writable, e.flags.user)
            else PageFault
  {
    var page := vaddr / PAGE;
    SameIndices(vaddr);
    PathsDiffer(page, page);
    WalkAgrees(mem, tree, PathOf(page), TOP_LEVEL, true, true);
  }

  /** After vmm_map_page the processor reaches the frame from every address of the page, with exactly the rights asked
      for, and from every other address what it reached before. */
  lemma MappedIsReached(mem: Memory, mem': Memory, used: set<nat>, used': set<nat>, tree: Node, tree': Node, page: nat,
                        frame: nat, writable: bool, user: bool, vaddr: nat)
    requires TreeOk(mem, used, tree) && TreeOk(mem', used', tree') && vaddr < LOWER_PAGES * PAGE
    requires MappedOne(mem, mem', used, used', tree, tree', page, Entry(LeafFlags(writable, user), frame))
    ensures Processor(mem', tree'.frame, vaddr) ==
            if page * 0x1000 <= vaddr < (page + 1) * 0x1000 then Reach(frame, writable, user)
            else Processor(mem, tree.frame, vaddr)
  {
    hide Space, TreeOk, Processor, Frames, TablesAdded;
    SpaceIsTranslation(mem, used, tree, vaddr);
    SpaceIsTranslation(mem', used', tree', vaddr);
    assert vaddr / PAGE == page <==> page * 0x1000 <= vaddr < (page + 1) * 0x1000;
  }
}
