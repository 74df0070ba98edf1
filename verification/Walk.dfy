/** One table walk of vmm_map_page and vmm_unmap_page, as changes to the tree of a pagemap. */
module WalkSpec {
  import opened Machine
  import opened PageTables
  import opened CloneSpec

  /** The index of a virtual page in the table at height h: the nine bits of virtual_addr for that table. */
  function Digit(page: nat, h: nat): (d: nat)
    ensures d < ENTRIES
  {
    if h == 0 then page % ENTRIES else Digit(page / ENTRIES, h - 1)
  }

  /** The four table indices of a virtual page number, root first. */
  function PathOf(page: nat): (path: seq<nat>)
    ensures |path| == TOP_LEVEL && forall i :: 0 <= i < TOP_LEVEL ==> path[i] < ENTRIES
  {
    seq(TOP_LEVEL, i requires 0 <= i < TOP_LEVEL => Digit(page, TOP_LEVEL - 1 - i))
  }

  /** Number of pages in the lower half of the address space. */
  const LOWER_PAGES: nat := 0x8_0000_0000

  /** Distinct lower-half pages have distinct paths, and their root index is in the lower half. */
  lemma PathsDiffer(page: nat, page': nat)
    requires page < LOWER_PAGES && page' < LOWER_PAGES
    ensures PathOf(page)[0] < LOWER_HALF
    ensures PathOf(page) == PathOf(page') ==> page == page'
  {
    LeadingDigit(page);
    LeadingDigit(page');
    if PathOf(page) == PathOf(page') {
      var p, p' := PathOf(page), PathOf(page');
      assert p[0] == Digit(page, 3) && p[1] == Digit(page, 2) && p[2] == Digit(page, 1) && p[3] == Digit(page, 0);
      assert p'[0] == Digit(page', 3) && p'[1] == Digit(page', 2) && p'[2] == Digit(page', 1) && p'[3] == Digit(page', 0);
      var (pd, pd') := (page / ENTRIES, page' / ENTRIES);
      var (pdp, pdp') := (pd / ENTRIES, pd' / ENTRIES);
      assert Digit(page, 2) == Digit(pd, 1) == Digit(pdp, 0) && Digit(page', 2) == Digit(pd', 1) == Digit(pdp', 0);
      SamePlace(pdp, pdp');
      assert Digit(page, 1) == Digit(pd, 0) && Digit(page', 1) == Digit(pd', 0);
      SamePlace(pd, pd');
      SamePlace(page, page');
    }
  }

  lemma LeadingDigit(page: nat)
    requires page < LOWER_PAGES
    ensures Digit(page, 3) == page / ENTRIES / ENTRIES / ENTRIES < LOWER_HALF
    ensures PathOf(page)[0] == Digit(page, 3)
  {
    var pd := page / ENTRIES;
    var pdp := pd / ENTRIES;
    assert Digit(page, 3) == Digit(pd, 2) == Digit(pdp, 1) == Digit(pdp / ENTRIES, 0);
  }

  lemma SamePlace(a: nat, b: nat)
    ensures a / ENTRIES == b / ENTRIES && a % ENTRIES == b % ENTRIES ==> a == b
  {
  }

  /** The address space a pagemap tree denotes: lower-half page to leaf entry. */
  ghost function Space(tree: Node): map<nat, Entry> {
    map p: nat | p < LOWER_PAGES && Lookup(tree, PathOf(p)).Some? :: Lookup(tree, PathOf(p)).value
  }

  lemma SpaceUpdated(tree: Node, tree': Node, page: nat, entry: Option<Entry>)
    requires page < LOWER_PAGES
    requires forall q: seq<nat> :: |q| == TOP_LEVEL ==>
               Lookup(tree', q) == if q == PathOf(page) then entry else Lookup(tree, q)
    ensures Space(tree') == if entry.Some? then Space(tree)[page := entry.value] else Space(tree) - {page}
  {
    forall p: nat | p < LOWER_PAGES
      ensures Lookup(tree', PathOf(p)) == if p == page then entry else Lookup(tree, PathOf(p))
    {
      PathsDiffer(p, page);
    }
  }

  /** The entry allocate_page_table_page builds. */
  const TABLE_FLAGS := NO_FLAGS.(present := true, writable := true, user := true, writeThrough := true)

  /** The leaf entry vmm_map_page builds. */
  function LeafFlags(writable: bool, user: bool): Flags {
    NO_FLAGS.(present := true, writable := writable, user := user, writeThrough := true)
  }

  /** Same translation everywhere. */
  ghost predicate SameTranslation(tree: Node, tree': Node) {
    forall q: seq<nat> :: |q| == TOP_LEVEL ==> Lookup(tree', q) == Lookup(tree, q)
  }

  /** From `tree` to tree' only tables were added, in frames that were free, and nothing is translated differently. */
  ghost predicate Grew(mem: Memory, mem': Memory, used: set<nat>, used': set<nat>, tree: Node, tree': Node) {
    && Frames(tree) <= Frames(tree') && Taken(used, used', Frames(tree') - Frames(tree))
    && OnlyIn(mem, mem', Frames(tree')) && PagesKept(mem, mem', used)
    && SameTranslation(tree, tree')
  }

  /** No page of data in use was written. */
  ghost predicate PagesKept(mem: Memory, mem': Memory, used: set<nat>) {
    forall f :: f in used && f in mem && mem[f].Page? ==> f in mem' && mem'[f] == mem[f]
  }

  /** A well-formed pagemap tree in memory (kernel/mm/vmm/vmm.c keeps every lower half this way). */
  ghost predicate TreeOk(mem: Memory, used: set<nat>, tree: Node) {
    tree.Branch? && Sound(mem, used, tree, TOP_LEVEL) && Distinct(tree) && 0 !in Frames(tree)
  }

  lemma GrewNothing(mem: Memory, used: set<nat>, tree: Node)
    ensures Grew(mem, mem, used, used, tree, tree)
  {
  }

  lemma GrewTrans(mem: Memory, mem': Memory, mem'': Memory, used: set<nat>, used': set<nat>, used'': set<nat>,
                  tree: Node, tree': Node, tree'': Node)
    requires Grew(mem, mem', used, used', tree, tree') && Grew(mem', mem'', used', used'', tree', tree'')
    ensures Grew(mem, mem'', used, used'', tree, tree'')
  {
    var (a, b, c) := (Frames(tree), Frames(tree'), Frames(tree''));
    TakenTrans(used, used', used'', b - a, c - b);
    assert (b - a) + (c - b) == c - a;
    OnlyInTrans(mem, mem', mem'', b, c, c);
  }

  /** How many tables a walk to the end of `path` has to allocate. */
  ghost function Missing(node: Node, path: seq<nat>): (n: nat)
    ensures n <= Max(0, |path| - 1)
    decreases |path|
  {
    if |path| <= 1 then 0
    else if node.Branch? && path[0] < |node.kids| && node.kids[path[0]].Branch? then
      Missing(node.kids[path[0]], path[1..])
    else |path| - 1
  }

  /** From `tree` to tree' the tables on the way along `path` were added, where they were missing. */
  ghost predicate TablesAdded(tree: Node, tree': Node, path: seq<nat>) {
    forall q: seq<nat> :: HasTable(tree', q) <==> HasTable(tree, q) || q <= path
  }

  lemma TablesThere(tree: Node, path: seq<nat>)
    requires HasTable(tree, path)
    ensures TablesAdded(tree, tree, path)
  {
    forall q: seq<nat> | q <= path ensures HasTable(tree, q) {
      TableOnTheWay(tree, path, q);
    }
  }

  lemma TablesAddedTrans(tree: Node, tree1: Node, tree': Node, path: seq<nat>, path': seq<nat>)
    requires TablesAdded(tree, tree1, path) && TablesAdded(tree1, tree', path') && path <= path'
    ensures TablesAdded(tree, tree', path')
  {
  }

  ghost function EmptyKids(): (kids: seq<Node>)
    ensures |kids| == ENTRIES && forall i :: 0 <= i < ENTRIES ==> kids[i] == Absent
  {
    seq(ENTRIES, _ => Absent)
  }

  ghost function NewTable(f: nat): Node {
    Branch(TABLE_FLAGS, f, EmptyKids())
  }

  lemma {:induction false} AbsentKids(kids: seq<Node>, n: nat)
    requires n <= |kids| && forall i :: 0 <= i < |kids| ==> kids[i] == Absent
    ensures KidFrames(kids, n) == {}
  {
    if n > 0 {
      AbsentKids(kids, n - 1);
    }
  }

  lemma NewTableHolds(mem: Memory, f: nat, level: nat)
    requires f in mem && mem[f] == EmptyTable() && 1 <= level < TOP_LEVEL
    ensures Holds(mem, NewTable(f), level) && Distinct(NewTable(f)) && Live(NewTable(f)) && Frames(NewTable(f)) == {f}
  {
    AbsentKids(EmptyKids(), ENTRIES);
  }

  lemma {:induction false} PutLive(node: Node, path: seq<nat>, c: Node)
    requires Passes(node, path) && Live(node) && Live(c)
    ensures Live(Put(node, path, c))
    decreases |path|
  {
    if path != [] {
      PutLive(node.kids[path[0]], path[1..], c);
    }
  }

  /** Rewriting the entry at the end of `path` to lead to c. */
  lemma Rewritten(mem: Memory, mem': Memory, used: set<nat>, used': set<nat>, tree: Node, path: seq<nat>, c: Node)
    requires TreeOk(mem, used, tree) && 1 <= |path| <= TOP_LEVEL && Passes(tree, path)
    requires EntryChanged(mem, mem', tree, path, c)
    requires Holds(mem', c, TOP_LEVEL - |path|) && Distinct(c) && Live(c) && 0 !in Frames(c)
    requires used + Frames(c) <= used'
    ensures TreeOk(mem', used', Put(tree, path, c))
    ensures Frames(Put(tree, path, c)) == Frames(tree) - Frames(At(tree, path)) + Frames(c)
    ensures EntryOf(Put(tree, path, c)) == EntryOf(tree)
    ensures Passes(Put(tree, path, c), path) && At(Put(tree, path, c), path) == c
  {
    PutHolds(mem, mem', tree, path, c, TOP_LEVEL);
    PutLive(tree, path, c);
    PutThenAt(tree, path, c);
  }

  /** Putting an empty table where nothing was changes no translation. */
  lemma EmptyTableTranslatesNothing(tree: Node, path: seq<nat>, f: nat)
    requires |path| < TOP_LEVEL && Passes(tree, path) && At(tree, path) == Absent
    ensures SameTranslation(tree, Put(tree, path, NewTable(f)))
  {
    forall q: seq<nat> | |q| == TOP_LEVEL ensures Lookup(Put(tree, path, NewTable(f)), q) == Lookup(tree, q) {
      LookupAfterPut(tree, path, NewTable(f), q);
      if path <= q {
        var rest := q[|path|..];
        assert Lookup(NewTable(f), rest) == if rest[0] < ENTRIES then Lookup(Absent, rest[1..]) else None;
      }
    }
  }

  /** Putting an empty table where nothing was adds that table. */
  lemma EmptyTableAdded(tree: Node, prefix: seq<nat>, idx: nat, f: nat)
    requires Passes(tree, prefix) && At(tree, prefix).Branch?
    requires Passes(tree, prefix + [idx]) && At(tree, prefix + [idx]) == Absent
    ensures TablesAdded(tree, Put(tree, prefix + [idx], NewTable(f)), prefix + [idx])
  {
    var path := prefix + [idx];
    TableAtPath(tree, prefix);
    forall q: seq<nat>
      ensures HasTable(Put(tree, path, NewTable(f)), q) <==> HasTable(tree, q) || q <= path
    {
      TablesAfterPut(tree, path, NewTable(f), q);
      if q <= path && q != path {
        assert q <= prefix;
        TableOnTheWay(tree, prefix, q);
      } else if path <= q {
        var rest := q[|path|..];
        assert HasTable(NewTable(f), rest) <==> rest == [];
        assert rest == [] <==> q == path;
      }
    }
  }

  /** What a walk finds in the table it has reached. */
  lemma StandingAt(mem: Memory, used: set<nat>, tree: Node, prefix: seq<nat>, idx: nat)
    requires TreeOk(mem, used, tree) && |prefix| < TOP_LEVEL && Passes(tree, prefix) && At(tree, prefix).Branch?
    requires idx < |At(tree, prefix).kids|
    ensures var here := At(tree, prefix);
            && IsTable(mem, here.frame) && here.frame in used && idx < ENTRIES
            && mem[here.frame].entries[idx] == EntryOf(here.kids[idx])
            && Holds(mem, here.kids[idx], TOP_LEVEL - |prefix| - 1) && Live(here.kids[idx])
    ensures Passes(tree, prefix + [idx]) && At(tree, prefix + [idx]) == At(tree, prefix).kids[idx]
    ensures Parent(tree, prefix + [idx]) == At(tree, prefix)
    ensures At(tree, prefix).frame in Frames(tree)
  {
    AtHolds(mem, tree, prefix, TOP_LEVEL);
    AtLive(tree, prefix);
    AtFrames(tree, prefix);
    AtExtends(tree, prefix, idx);
    ParentIsAt(tree, prefix, idx);
  }

  lemma {:induction false} ParentIsAt(tree: Node, prefix: seq<nat>, idx: nat)
    requires Passes(tree, prefix) && Passes(tree, prefix + [idx])
    ensures Parent(tree, prefix + [idx]) == At(tree, prefix)
    decreases |prefix|
  {
    if prefix != [] {
      assert (prefix + [idx])[1..] == prefix[1..] + [idx];
      ParentIsAt(tree.kids[prefix[0]], prefix[1..], idx);
    }
  }

  /** What an entry of a table above the last level says about the node it leads to. */
  lemma EntryLeadsOn(mem: Memory, kid: Node, level: nat)
    requires Holds(mem, kid, level) && Live(kid) && level > 0
    ensures EntryOf(kid) == ZERO ==> kid == Absent
    ensures EntryOf(kid) != ZERO ==> kid.Branch? && kid.flags.user && kid.frame == EntryOf(kid).index
  {
  }

  /** A fresh table entered into slot idx of the table at `prefix`. */
  lemma TableAdded(mem: Memory, mem': Memory, used: set<nat>, used': set<nat>, tree: Node, prefix: seq<nat>, idx: nat,
                   f: nat) returns (tree': Node)
    requires TreeOk(mem, used, tree) && |prefix| < TOP_LEVEL - 1 && Passes(tree, prefix) && At(tree, prefix).Branch?
    requires idx < |At(tree, prefix).kids| && At(tree, prefix).kids[idx] == Absent
    requires f !in used && f != 0 && used' == used + {f} && IsTable(mem, At(tree, prefix).frame) && idx < ENTRIES
    requires var cur := At(tree, prefix).frame;
             mem' == mem[f := EmptyTable()][cur := Table(mem[cur].entries[idx := Entry(TABLE_FLAGS, f)])]
    ensures TreeOk(mem', used', tree') && EntryOf(tree') == EntryOf(tree)
    ensures Grew(mem, mem', used, used', tree, tree') && TablesAdded(tree, tree', prefix + [idx])
    ensures Passes(tree', prefix + [idx]) && At(tree', prefix + [idx]) == NewTable(f)
  {
    hide Holds, Live, Distinct, SameTranslation, TablesAdded;
    var path, c := prefix + [idx], NewTable(f);
    StandingAt(mem, used, tree, prefix, idx);
    NewTableHolds(mem', f, TOP_LEVEL - |path|);
    Rewritten(mem, mem', used, used', tree, path, c);
    EmptyTableTranslatesNothing(tree, path, f);
    EmptyTableAdded(tree, prefix, idx, f);
    tree' := Put(tree, path, c);
  }

  /** The frame a page is mapped to. */
  ghost function FrameOf(space: map<nat, Entry>, page: nat): set<nat> {
    if page in space then {space[page].index} else {}
  }

  /** Exactly `page` got the entry e, and the frame it had before, if any, left the tree; besides that only tables were
      added, in frames that were free. */
  ghost predicate MappedOne(mem: Memory, mem': Memory, used: set<nat>, used': set<nat>, tree: Node, tree': Node,
                            page: nat, e: Entry) {
    && Space(tree') == Space(tree)[page := e]
    && used <= used' && Frames(tree') == Frames(tree) - FrameOf(Space(tree), page) + (used' - used) + {e.index}
    && OnlyIn(mem, mem', Frames(tree) + (used' - used)) && PagesKept(mem, mem', used)
    && TablesAdded(tree, tree', PathOf(page)[..3])
  }

  /** One step of a walk: the next table is there, and it was allocated only if it had to be. */
  ghost predicate Descended(mem: Memory, mem': Memory, used: set<nat>, used': set<nat>, tree: Node, tree': Node,
                            prefix: seq<nat>, idx: nat, next: nat)
    requires Passes(tree, prefix) && At(tree, prefix).Branch? && idx < |At(tree, prefix).kids|
  {
    && TreeOk(mem', used', tree') && EntryOf(tree') == EntryOf(tree)
    && Grew(mem, mem', used, used', tree, tree') && TablesAdded(tree, tree', prefix + [idx])
    && Passes(tree', prefix + [idx]) && At(tree', prefix + [idx]).Branch? && At(tree', prefix + [idx]).frame == next
    && (if At(tree, prefix).kids[idx].Branch? then tree' == tree && mem' == mem && used' == used
        else At(tree', prefix + [idx]).kids == EmptyKids())
  }

  ghost predicate LowerPath(path: seq<nat>) {
    |path| == TOP_LEVEL && path[0] < LOWER_HALF && forall i :: 0 <= i < TOP_LEVEL ==> path[i] < ENTRIES
  }

  /** The state of a walk that has gone i tables deep and stands at table cur. */
  ghost predicate Walking(mem: Memory, mem': Memory, used: set<nat>, used': set<nat>, tree: Node, tree': Node,
                          path: seq<nat>, i: nat, cur: nat) {
    && |path| == TOP_LEVEL && i < TOP_LEVEL
    && TreeOk(mem', used', tree') && EntryOf(tree') == EntryOf(tree)
    && Grew(mem, mem', used, used', tree, tree') && TablesAdded(tree, tree', path[..i])
    && Passes(tree', path[..i]) && At(tree', path[..i]).Branch? && At(tree', path[..i]).frame == cur
    && Missing(At(tree', path[..i]), path[i..]) <= Missing(tree, path)
    && (Missing(tree, path) == 0 ==> tree' == tree && mem' == mem && used' == used)
  }

  /** Every table of the walk has an entry for the next index of the path. */
  lemma IndexInTable(mem: Memory, used: set<nat>, tree: Node, path: seq<nat>, i: nat)
    requires TreeOk(mem, used, tree) && LowerPath(path) && i < TOP_LEVEL
    requires Passes(tree, path[..i]) && At(tree, path[..i]).Branch?
    ensures path[i] < |At(tree, path[..i]).kids|
  {
    AtHolds(mem, tree, path[..i], TOP_LEVEL);
  }

  lemma WalkStepped(mem: Memory, mem1: Memory, mem': Memory, used: set<nat>, used1: set<nat>, used': set<nat>,
                    tree: Node, tree1: Node, tree': Node, path: seq<nat>, i: nat, cur: nat, next: nat)
    requires i < 3 && Walking(mem, mem1, used, used1, tree, tree1, path, i, cur)
    requires path[i] < |At(tree1, path[..i]).kids|
    requires Descended(mem1, mem', used1, used', tree1, tree', path[..i], path[i], next)
    ensures Walking(mem, mem', used, used', tree, tree', path, i + 1, next)
    ensures var here := At(tree1, path[..i]);
            Missing(here, path[i..]) == Missing(At(tree', path[..i + 1]), path[i + 1..]) +
                                        if here.kids[path[i]].Branch? then 0 else 1
  {
    hide TablesAdded;
    GrewTrans(mem, mem1, mem', used, used1, used', tree, tree1, tree');
    assert path[..i] + [path[i]] == path[..i + 1];
    TablesAddedTrans(tree, tree1, tree', path[..i], path[..i + 1]);
    assert path[i..][1..] == path[i + 1..];
    AtExtends(tree1, path[..i], path[i]);
  }

  /** A page can be mapped only if no table on the way is missing. */
  lemma {:induction false} MappedNeedsTables(node: Node, path: seq<nat>)
    ensures Lookup(node, path).Some? ==> Missing(node, path) == 0
    decreases |path|
  {
    if |path| > 1 && node.Branch? && path[0] < |node.kids| {
      MappedNeedsTables(node.kids[path[0]], path[1..]);
    }
  }

  /** At the last table the entry is zero exactly when the page is not mapped. */
  lemma LastTable(mem: Memory, mem': Memory, used: set<nat>, used': set<nat>, tree: Node, tree': Node, path: seq<nat>,
                  cur: nat)
    requires Walking(mem, mem', used, used', tree, tree', path, 3, cur) && LowerPath(path)
    ensures AtLastTable(mem', tree', path, cur)
    ensures mem'[cur].entries[path[3]] != ZERO <==> Lookup(tree, path).Some?
  {
    ReachedLastTable(mem', used', tree', path, cur);
  }

  lemma {:induction false} ParentApart(node: Node, path: seq<nat>)
    requires path != [] && Passes(node, path) && Distinct(node)
    ensures Parent(node, path).Branch? && Parent(node, path).frame in Frames(node)
    ensures Frames(At(node, path)) <= Frames(node) - {Parent(node, path).frame}
    decreases |path|
  {
    KidIn(node.kids, |node.kids|, path[0]);
    if |path| > 1 {
      ParentApart(node.kids[path[0]], path[1..]);
    } else {
      assert At(node.kids[path[0]], path[1..]) == node.kids[path[0]];
    }
  }

  /** Writing a leaf entry at the end of a walk. */
  lemma LeafWritten(mem: Memory, mem1: Memory, mem': Memory, used: set<nat>, used': set<nat>, tree: Node, tree1: Node,
                    page: nat, cur: nat, c: Node) returns (tree': Node)
    requires page < LOWER_PAGES && LowerPath(PathOf(page))
    requires Walking(mem, mem1, used, used', tree, tree1, PathOf(page), 3, cur)
    requires c.Leaf? && c.flags.present && !c.flags.huge
    requires c.frame in used && c.frame != 0 && c.frame in mem && c.frame !in Frames(tree)
    requires IsTable(mem1, cur) && mem' == mem1[cur := Table(mem1[cur].entries[PathOf(page)[3] := EntryOf(c)])]
    ensures TreeOk(mem', used', tree') && EntryOf(tree') == EntryOf(tree)
    ensures MappedOne(mem, mem', used, used', tree, tree', page, EntryOf(c))
  {
    hide TablesAdded, SameTranslation, Space, Holds, Live, Distinct;
    var path := PathOf(page);
    LastTable(mem, mem1, used, used', tree, tree1, path, cur);
    Rewritten(mem1, mem', used', used', tree1, path, c);
    tree' := Put(tree1, path, c);
    LeafSpace(tree, tree1, page, c);
    LeafFrame(tree, tree1, page);
    LeafAddsNoTable(tree, tree1, path, c);
    MappedPage(tree, page);
    assert Frames(tree1) == Frames(tree) + (used' - used);
  }

  lemma MappedPage(tree: Node, page: nat)
    ensures page in Space(tree) ==> Missing(tree, PathOf(page)) == 0
  {
    MappedNeedsTables(tree, PathOf(page));
  }

  lemma LeafSpace(tree: Node, tree1: Node, page: nat, c: Node)
    requires page < LOWER_PAGES && SameTranslation(tree, tree1) && Passes(tree1, PathOf(page)) && c.Leaf?
    ensures Space(Put(tree1, PathOf(page), c)) == Space(tree)[page := EntryOf(c)]
  {
    hide Space;
    var path, tree' := PathOf(page), Put(tree1, PathOf(page), c);
    forall q: seq<nat> | |q| == TOP_LEVEL
      ensures Lookup(tree', q) == if q == path then Some(EntryOf(c)) else Lookup(tree, q)
    {
      LookupAfterPut(tree1, path, c, q);
    }
    SpaceUpdated(tree, tree', page, Some(EntryOf(c)));
  }

  lemma LeafAddsNoTable(tree: Node, tree1: Node, path: seq<nat>, c: Node)
    requires |path| == TOP_LEVEL && Passes(tree1, path) && !At(tree1, path).Branch? && c.Leaf?
    requires TablesAdded(tree, tree1, path[..3])
    ensures TablesAdded(tree, Put(tree1, path, c), path[..3])
  {
    forall q: seq<nat> ensures HasTable(Put(tree1, path, c), q) <==> HasTable(tree1, q) {
      TablesAfterPut(tree1, path, c, q);
    }
  }

  /** What stands at the end of a walk is the frame the page had before it. */
  lemma LeafFrame(tree: Node, tree1: Node, page: nat)
    requires page < LOWER_PAGES && LowerPath(PathOf(page)) && SameTranslation(tree, tree1)
    requires Passes(tree1, PathOf(page)) && !At(tree1, PathOf(page)).Branch?
    ensures Frames(At(tree1, PathOf(page))) == FrameOf(Space(tree), page)
  {
    var path := PathOf(page);
    LookupAfterPut(tree1, path, Absent, path);
    assert Lookup(tree1, path) == Lookup(At(tree1, path), path[4..]);
    assert Lookup(tree, path) == Lookup(tree1, path);
  }

  /** Between two states of one pagemap: besides the frames `lost` it kept its own, it got exactly those that were taken,
      and nothing outside it was written. */
  ghost predicate Confined(mem: Memory, mem': Memory, used: set<nat>, used': set<nat>, tree: Node, tree': Node,
                           lost: set<nat>) {
    && used <= used' && lost <= Frames(tree) && Frames(tree') == Frames(tree) - lost + (used' - used)
    && OnlyIn(mem, mem', Frames(tree) + (used' - used))
  }

  lemma ConfinedNothing(mem: Memory, used: set<nat>, tree: Node)
    ensures Confined(mem, mem, used, used, tree, tree, {})
  {
  }

  lemma ConfinedTrans(mem: Memory, mem1: Memory, mem': Memory, used: set<nat>, used1: set<nat>, used': set<nat>,
                      tree: Node, tree1: Node, tree': Node, lost: set<nat>, lost1: set<nat>)
    requires Confined(mem, mem1, used, used1, tree, tree1, lost) && Confined(mem1, mem', used1, used', tree1, tree', lost1)
    requires lost1 <= Frames(tree) && Frames(tree) <= used
    ensures Confined(mem, mem', used, used', tree, tree', lost + lost1)
  {
    hide Frames;
    OnlyInTrans(mem, mem1, mem', Frames(tree) + (used1 - used), Frames(tree1) + (used' - used1),
                Frames(tree) + (used' - used));
  }

  /** Mapping a page to a frame taken for it. */
  lemma MappedConfined(mem: Memory, mem': Memory, used: set<nat>, used1: set<nat>, used': set<nat>, tree: Node, tree': Node,
                       page: nat, e: Entry)
    requires MappedOne(mem, mem', used1, used', tree, tree', page, e) && used1 == used + {e.index} && e.index !in used
    requires FrameOf(Space(tree), page) <= Frames(tree)
    ensures Confined(mem, mem', used, used', tree, tree', FrameOf(Space(tree), page))
  {
    hide Space, Frames, FrameOf;
  }

  /** Exactly `page` lost its entry, and only the pagemap's own tables were written. */
  ghost predicate UnmappedOne(mem: Memory, mem': Memory, used: set<nat>, tree: Node, tree': Node, page: nat) {
    && Space(tree') == Space(tree) - {page}
    && Frames(tree') <= Frames(tree) && OnlyIn(mem, mem', Frames(tree)) && PagesKept(mem, mem', used)
  }

  /** cur is the table holding the entry at the end of `path`, which is zero exactly when the page is not mapped. */
  ghost predicate AtLastTable(mem: Memory, tree: Node, path: seq<nat>, cur: nat) {
    && |path| == TOP_LEVEL && Passes(tree, path) && IsTable(mem, cur) && path[3] < ENTRIES
    && Parent(tree, path).Branch? && Parent(tree, path).frame == cur && cur in Frames(tree)
    && Frames(At(tree, path)) <= Frames(tree) - {cur} && !At(tree, path).Branch?
    && (mem[cur].entries[path[3]] != ZERO <==> Lookup(tree, path).Some?)
  }

  lemma ReachedLastTable(mem: Memory, used: set<nat>, tree: Node, path: seq<nat>, cur: nat)
    requires TreeOk(mem, used, tree) && LowerPath(path)
    requires Passes(tree, path[..3]) && At(tree, path[..3]).Branch? && At(tree, path[..3]).frame == cur
    ensures AtLastTable(mem, tree, path, cur)
  {
    IndexInTable(mem, used, tree, path, 3);
    StandingAt(mem, used, tree, path[..3], path[3]);
    assert path[..3] + [path[3]] == path;
    LookupAfterPut(tree, path, Absent, path);
    assert Lookup(tree, path) == Lookup(At(tree, path), path[4..]);
    ParentApart(tree, path);
  }

  lemma EntryCleared(mem: Memory, mem': Memory, used: set<nat>, tree: Node, page: nat, cur: nat)
    returns (tree': Node)
    requires page < LOWER_PAGES && TreeOk(mem, used, tree) && AtLastTable(mem, tree, PathOf(page), cur)
    requires mem' == mem[cur := Table(mem[cur].entries[PathOf(page)[3] := ZERO])]
    ensures TreeOk(mem', used, tree') && EntryOf(tree') == EntryOf(tree)
    ensures UnmappedOne(mem, mem', used, tree, tree', page)
  {
    var path := PathOf(page);
    Rewritten(mem, mem', used, used, tree, path, Absent);
    tree' := Put(tree, path, Absent);
    forall q: seq<nat> | |q| == TOP_LEVEL ensures Lookup(tree', q) == if q == path then None else Lookup(tree, q) {
      LookupAfterPut(tree, path, Absent, q);
    }
    SpaceUpdated(tree, tree', page, None);
  }
}
