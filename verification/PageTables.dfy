/** Four-level page tables as they lie in physical memory (section 4.5 of the Intel SDM, Volume 3A),
    and the tree of frames the lower half of a pagemap denotes. */
module PageTables {
  import opened Machine

  const ENTRIES: nat := 512
  const LOWER_HALF: nat := 256
  const TOP_LEVEL: nat := 4

  /** The attribute bits of union page_table_entry, all but the frame index. */
  datatype Flags = Flags(present: bool, writable: bool, user: bool, writeThrough: bool, cacheDisable: bool,
                         accessed: bool, dirty: bool, huge: bool, global: bool, reserved: nat,
                         avl2: nat, pk: nat, xd: bool)

  const NO_FLAGS := Flags(false, false, false, false, false, false, false, false, false, 0, 0, 0, false)

  datatype Entry = Entry(flags: Flags, index: nat)

  /** raw == 0 */
  const ZERO := Entry(NO_FLAGS, 0)

  /** The bytes of one page. */
  type PageData = b: seq<byte> | |b| == PAGE witness seq(PAGE, _ => 0)

  /** A frame of physical memory, read as a table or as plain bytes. */
  datatype Frame = Table(entries: seq<Entry>) | Page(bytes: PageData)

  type Memory = map<nat, Frame>

  /** A page after memset to zero, read as a table. */
  function EmptyTable(): Frame {
    Table(seq(ENTRIES, _ => ZERO))
  }

  /** What one page-table entry leads to. Stale is a non-zero entry that is not present. */
  datatype Node =
    | Absent
    | Stale(entry: Entry)
    | Leaf(flags: Flags, frame: nat)
    | Branch(flags: Flags, frame: nat, kids: seq<Node>)

  ghost function EntryOf(node: Node): Entry {
    match node
    case Absent => ZERO
    case Stale(e) => e
    case Leaf(flags, frame) => Entry(flags, frame)
    case Branch(flags, frame, _) => Entry(flags, frame)
  }

  /** How many entries of a table the walks over a pagemap visit. */
  function Limit(level: nat): nat {
    if level == TOP_LEVEL then LOWER_HALF else ENTRIES
  }

  /** Flags of an entry leading to a table: allocate_page_table_page sets them so, and nothing clears them. */
  ghost predicate Open(flags: Flags) {
    flags.present && flags.writable && flags.user && !flags.huge
  }

  ghost predicate IsTable(mem: Memory, frame: nat) {
    frame in mem && mem[frame].Table? && |mem[frame].entries| == ENTRIES
  }

  /** Memory holds the subtree `node`, whose tables start at `level` (0 for a leaf). */
  ghost predicate Holds(mem: Memory, node: Node, level: nat)
    decreases node
  {
    match node
    case Absent => true
    case Stale(e) => e != ZERO && !e.flags.present
    case Leaf(flags, frame) => level == 0 && flags.present && !flags.huge && frame in mem
    case Branch(flags, frame, kids) =>
      && level > 0 && Open(flags) && IsTable(mem, frame) && |kids| == Limit(level)
      && forall i :: 0 <= i < |kids| ==> mem[frame].entries[i] == EntryOf(kids[i]) && Holds(mem, kids[i], level - 1)
  }

  /** The frames of a subtree: its tables and its leaf pages. */
  ghost function Frames(node: Node): set<nat>
    decreases node, 1, 0
  {
    match node
    case Absent => {}
    case Stale(_) => {}
    case Leaf(_, frame) => {frame}
    case Branch(_, frame, kids) => {frame} + KidFrames(kids, |kids|)
  }

  /** The frames below the first n entries of a table. */
  ghost function KidFrames(kids: seq<Node>, n: nat): set<nat>
    requires n <= |kids|
    decreases kids, 0, n
  {
    if n == 0 then {} else KidFrames(kids, n - 1) + Frames(kids[n - 1])
  }

  /** No frame occurs twice in the subtree. */
  ghost predicate Distinct(node: Node) {
    node.Branch? ==> node.frame !in KidFrames(node.kids, |node.kids|) && DistinctKids(node.kids)
  }

  ghost predicate DistinctKids(kids: seq<Node>) {
    && (forall i :: 0 <= i < |kids| ==> Distinct(kids[i]))
    && (forall i, j :: 0 <= i < j < |kids| ==> Frames(kids[i]) !! Frames(kids[j]))
  }

  /** No stale entry anywhere. */
  ghost predicate Live(node: Node) {
    match node
    case Stale(_) => false
    case Branch(_, _, kids) => forall i :: 0 <= i < |kids| ==> Live(kids[i])
    case _ => true
  }

  /** How many frames a subtree occupies. */
  ghost function Size(node: Node): nat
    decreases node, 1, 0
  {
    match node
    case Absent => 0
    case Stale(_) => 0
    case Leaf(_, _) => 1
    case Branch(_, _, kids) => 1 + KidSize(kids, |kids|)
  }

  ghost function KidSize(kids: seq<Node>, n: nat): nat
    requires n <= |kids|
    decreases kids, 0, n
  {
    if n == 0 then 0 else KidSize(kids, n - 1) + Size(kids[n - 1])
  }

  /** Same shape and flags, leaf by leaf equal contents, whatever the frames. */
  ghost predicate Twin(mem: Memory, a: Node, b: Node)
    decreases a
  {
    match a
    case Absent => b.Absent?
    case Stale(e) => b == a
    case Leaf(flags, frame) =>
      b.Leaf? && b.flags == flags && frame in mem && b.frame in mem && mem[b.frame] == mem[frame]
    case Branch(flags, _, kids) =>
      b.Branch? && b.flags == flags && |b.kids| == |kids| &&
      forall i :: 0 <= i < |kids| ==> Twin(mem, kids[i], b.kids[i])
  }

  // ---- The frames of the kids, by index.

  lemma {:induction false} KidIn(kids: seq<Node>, n: nat, i: nat)
    requires i < n <= |kids|
    ensures Frames(kids[i]) <= KidFrames(kids, n)
  {
    if i < n - 1 {
      KidIn(kids, n - 1, i);
    }
  }

  lemma {:induction false} KidsAvoid(kids: seq<Node>, n: nat, s: set<nat>)
    requires n <= |kids| && forall i :: 0 <= i < n ==> Frames(kids[i]) !! s
    ensures KidFrames(kids, n) !! s
  {
    if n > 0 {
      KidsAvoid(kids, n - 1, s);
    }
  }

  lemma {:induction false} KidsInside(kids: seq<Node>, n: nat, s: set<nat>)
    requires n <= |kids| && forall i :: 0 <= i < n ==> Frames(kids[i]) <= s
    ensures KidFrames(kids, n) <= s
  {
    if n > 0 {
      KidsInside(kids, n - 1, s);
    }
  }

  lemma {:induction false} SameKids(kids: seq<Node>, kids': seq<Node>, n: nat)
    requires n <= |kids| && n <= |kids'| && forall i :: 0 <= i < n ==> kids[i] == kids'[i]
    ensures KidFrames(kids, n) == KidFrames(kids', n)
  {
    if n > 0 {
      SameKids(kids, kids', n - 1);
    }
  }

  lemma KidFramesSnoc(kids: seq<Node>, c: Node)
    ensures KidFrames(kids + [c], |kids| + 1) == KidFrames(kids, |kids|) + Frames(c)
  {
    SameKids(kids, kids + [c], |kids|);
  }

  /** Replacing kid a exchanges its frames for those of its replacement. */
  lemma {:induction false} KidFramesReplaced(kids: seq<Node>, n: nat, a: nat, c: Node)
    requires a < n <= |kids| && DistinctKids(kids)
    requires Frames(c) !! KidFrames(kids, n) - Frames(kids[a])
    ensures KidFrames(kids[a := c], n) == KidFrames(kids, n) - Frames(kids[a]) + Frames(c)
  {
    if a == n - 1 {
      SameKids(kids, kids[a := c], a);
      KidsAvoid(kids, a, Frames(kids[a]));
    } else {
      KidFramesReplaced(kids, n - 1, a, c);
    }
  }

  lemma {:induction false} KidSizeGrows(kids: seq<Node>, i: nat, n: nat)
    requires i <= n <= |kids|
    ensures KidSize(kids, i) <= KidSize(kids, n)
  {
    if i < n {
      KidSizeGrows(kids, i, n - 1);
    }
  }

  /** The size of a subtree without repeated frames is the number of its frames. */
  lemma {:induction false} SizeIsFrameCount(node: Node)
    requires Distinct(node)
    ensures Size(node) == |Frames(node)|
    decreases node, 1, 0
  {
    if node.Branch? {
      KidSizeIsFrameCount(node.kids, |node.kids|);
    }
  }

  lemma {:induction false} KidSizeIsFrameCount(kids: seq<Node>, n: nat)
    requires n <= |kids| && DistinctKids(kids)
    ensures KidSize(kids, n) == |KidFrames(kids, n)|
    decreases kids, 0, n
  {
    hide Frames, Size, Distinct;
    if n > 0 {
      KidSizeIsFrameCount(kids, n - 1);
      SizeIsFrameCount(kids[n - 1]);
      KidsAvoid(kids, n - 1, Frames(kids[n - 1]));
      assert KidFrames(kids, n - 1) * Frames(kids[n - 1]) == {};
    }
  }

  // ---- Framing: a subtree depends on memory only through its own frames.

  /** The two memories agree on every frame of `keep`. */
  ghost predicate Agree(mem: Memory, mem': Memory, keep: set<nat>) {
    forall f :: f in keep && f in mem ==> f in mem' && mem'[f] == mem[f]
  }

  lemma {:induction false} HoldsFrame(mem: Memory, mem': Memory, node: Node, level: nat)
    requires Holds(mem, node, level) && Agree(mem, mem', Frames(node))
    ensures Holds(mem', node, level)
    decreases node
  {
    if node.Branch? {
      forall i | 0 <= i < |node.kids| ensures Holds(mem', node.kids[i], level - 1) {
        KidIn(node.kids, |node.kids|, i);
        HoldsFrame(mem, mem', node.kids[i], level - 1);
      }
    }
  }

  lemma {:induction false} TwinFrame(mem: Memory, mem': Memory, a: Node, b: Node)
    requires Twin(mem, a, b) && Agree(mem, mem', Frames(a)) && Agree(mem, mem', Frames(b))
    ensures Twin(mem', a, b)
    decreases a
  {
    if a.Branch? {
      forall i | 0 <= i < |a.kids| ensures Twin(mem', a.kids[i], b.kids[i]) {
        KidIn(a.kids, |a.kids|, i);
        KidIn(b.kids, |b.kids|, i);
        TwinFrame(mem, mem', a.kids[i], b.kids[i]);
      }
    }
  }

  // ---- Translation: following a path of table indices from a node to a leaf.

  ghost function Lookup(node: Node, path: seq<nat>): Option<Entry>
    decreases |path|
  {
    if path == [] then (if node.Leaf? then Some(EntryOf(node)) else None)
    else if node.Branch? && path[0] < |node.kids| then Lookup(node.kids[path[0]], path[1..])
    else None
  }

  /** The path leads through branches all the way. */
  ghost predicate Passes(node: Node, path: seq<nat>)
    decreases |path|
  {
    path == [] || (node.Branch? && path[0] < |node.kids| && Passes(node.kids[path[0]], path[1..]))
  }

  ghost function At(node: Node, path: seq<nat>): Node
    requires Passes(node, path)
    decreases |path|
  {
    if path == [] then node else At(node.kids[path[0]], path[1..])
  }

  ghost function Put(node: Node, path: seq<nat>, c: Node): Node
    requires Passes(node, path)
    decreases |path|
  {
    if path == [] then c
    else node.(kids := node.kids[path[0] := Put(node.kids[path[0]], path[1..], c)])
  }

  lemma {:induction false} AtExtends(node: Node, path: seq<nat>, k: nat)
    requires Passes(node, path) && At(node, path).Branch? && k < |At(node, path).kids|
    ensures Passes(node, path + [k]) && At(node, path + [k]) == At(node, path).kids[k]
    decreases |path|
  {
    if path != [] {
      AtExtends(node.kids[path[0]], path[1..], k);
      assert (path + [k])[1..] == path[1..] + [k];
    }
  }

  lemma {:induction false} PutThenAt(node: Node, path: seq<nat>, c: Node)
    requires Passes(node, path)
    ensures Passes(Put(node, path, c), path) && At(Put(node, path, c), path) == c
    decreases |path|
  {
    if path != [] {
      PutThenAt(node.kids[path[0]], path[1..], c);
    }
  }

  /** Replacing the subtree at a path changes the translation of the paths through it and of no other. */
  lemma {:induction false} LookupAfterPut(node: Node, path: seq<nat>, c: Node, q: seq<nat>)
    requires Passes(node, path)
    ensures Lookup(Put(node, path, c), q) ==
            if path <= q then Lookup(c, q[|path|..]) else Lookup(node, q)
    ensures path <= q ==> Lookup(node, q) == Lookup(At(node, path), q[|path|..])
    decreases |path|
  {
    if path != [] && q != [] && q[0] == path[0] {
      LookupAfterPut(node.kids[path[0]], path[1..], c, q[1..]);
      assert path <= q <==> path[1..] <= q[1..] by {
        if path[1..] <= q[1..] {
          assert path == [path[0]] + path[1..] && q == [q[0]] + q[1..];
        }
      }
      assert path <= q ==> q[1..][|path[1..]|..] == q[|path|..];
    } else if path == [] {
      assert q[0..] == q;
    }
  }

  /** The path leads to a table, from table to table. */
  ghost predicate HasTable(node: Node, q: seq<nat>)
    decreases |q|
  {
    node.Branch? && (q == [] || (q[0] < |node.kids| && HasTable(node.kids[q[0]], q[1..])))
  }

  lemma {:induction false} TableAtPath(node: Node, q: seq<nat>)
    requires Passes(node, q)
    ensures HasTable(node, q) <==> At(node, q).Branch?
    decreases |q|
  {
    if q != [] {
      TableAtPath(node.kids[q[0]], q[1..]);
    }
  }

  lemma {:induction false} TableOnTheWay(node: Node, p: seq<nat>, q: seq<nat>)
    requires HasTable(node, p) && q <= p
    ensures HasTable(node, q)
    decreases |q|
  {
    if q != [] {
      TableOnTheWay(node.kids[p[0]], p[1..], q[1..]);
    }
  }

  /** Replacing the subtree at a path changes the tables at and below it and no other. */
  lemma {:induction false} TablesAfterPut(node: Node, path: seq<nat>, c: Node, q: seq<nat>)
    requires Passes(node, path)
    ensures HasTable(Put(node, path, c), q) <==> if path <= q then HasTable(c, q[|path|..]) else HasTable(node, q)
    ensures path <= q ==> (HasTable(node, q) <==> HasTable(At(node, path), q[|path|..]))
    decreases |path|
  {
    if path != [] && q != [] && q[0] == path[0] {
      TablesAfterPut(node.kids[path[0]], path[1..], c, q[1..]);
      assert path <= q <==> path[1..] <= q[1..] by {
        if path[1..] <= q[1..] {
          assert path == [path[0]] + path[1..] && q == [q[0]] + q[1..];
        }
      }
      assert path <= q ==> q[1..][|path[1..]|..] == q[|path|..];
    } else if path == [] {
      assert q[0..] == q;
    }
  }

  lemma {:induction false} AtFrames(node: Node, path: seq<nat>)
    requires Passes(node, path)
    ensures Frames(At(node, path)) <= Frames(node)
    decreases |path|
  {
    if path != [] {
      KidIn(node.kids, |node.kids|, path[0]);
      AtFrames(node.kids[path[0]], path[1..]);
    }
  }

  lemma {:induction false} AtHolds(mem: Memory, node: Node, path: seq<nat>, level: nat)
    requires Passes(node, path) && Holds(mem, node, level)
    ensures |path| <= level && Holds(mem, At(node, path), level - |path|)
    decreases |path|
  {
    if path != [] {
      AtHolds(mem, node.kids[path[0]], path[1..], level - 1);
    }
  }

  lemma {:induction false} AtLive(node: Node, path: seq<nat>)
    requires Passes(node, path) && Live(node)
    ensures Live(At(node, path))
    decreases |path|
  {
    if path != [] {
      AtLive(node.kids[path[0]], path[1..]);
    }
  }

  /** The table whose entry leads to the end of a non-empty path. */
  ghost function Parent(node: Node, path: seq<nat>): Node
    requires path != [] && Passes(node, path)
    decreases |path|
  {
    if |path| == 1 then node else Parent(node.kids[path[0]], path[1..])
  }

  /** Memory mem' differs from mem, as far as the tree goes, in the entry at the end of `path` and below it. */
  ghost predicate EntryChanged(mem: Memory, mem': Memory, node: Node, path: seq<nat>, c: Node)
    requires path != [] && Passes(node, path)
  {
    var parent, k, gone := Parent(node, path), path[|path| - 1], Frames(At(node, path));
    && parent.Branch? && IsTable(mem, parent.frame) && k < ENTRIES && parent.frame in mem'
    && mem'[parent.frame] == Table(mem[parent.frame].entries[k := EntryOf(c)])
    && Frames(c) * (Frames(node) - gone) == {}
    && Agree(mem, mem', Frames(node) - gone - {parent.frame})
  }

  lemma DistinctAfterPut(node: Node, a: nat, c: Node)
    requires node.Branch? && a < |node.kids| && Distinct(node) && Distinct(c)
    requires Frames(c) * (Frames(node) - Frames(node.kids[a])) == {}
    ensures Distinct(node.(kids := node.kids[a := c]))
    ensures Frames(node.(kids := node.kids[a := c])) == Frames(node) - Frames(node.kids[a]) + Frames(c)
  {
    var kids, kids', n := node.kids, node.kids[a := c], |node.kids|;
    KidIn(kids, n, a);
    KidFramesReplaced(kids, n, a, c);
    forall i | 0 <= i < n && i != a ensures Frames(kids'[i]) !! Frames(c) {
      KidIn(kids, n, i);
      KidsApart(kids, i, a);
    }
  }

  lemma KidsApart(kids: seq<Node>, i: nat, j: nat)
    requires DistinctKids(kids) && i < |kids| && j < |kids| && i != j
    ensures Frames(kids[i]) !! Frames(kids[j])
  {
    if i < j {
      assert Frames(kids[i]) !! Frames(kids[j]);
    } else {
      assert Frames(kids[j]) !! Frames(kids[i]);
    }
  }

  /** One entry rewritten in place: the tree with that subtree replaced is what memory now holds. */
  lemma {:induction false} PutHolds(mem: Memory, mem': Memory, node: Node, path: seq<nat>, c: Node, level: nat)
    requires path != [] && Passes(node, path)
    requires Holds(mem, node, level) && Distinct(node) && Distinct(c)
    requires |path| <= level && Holds(mem', c, level - |path|)
    requires EntryChanged(mem, mem', node, path, c)
    ensures Holds(mem', Put(node, path, c), level) && Distinct(Put(node, path, c))
    ensures Frames(Put(node, path, c)) == Frames(node) - Frames(At(node, path)) + Frames(c)
    ensures EntryOf(Put(node, path, c)) == EntryOf(node)
    decreases |path|
  {
    hide Holds, Distinct, Frames;
    var a, rest := path[0], path[1..];
    KidParts(mem, node, a, level);
    if rest == [] {
      assert At(node.kids[a], rest) == node.kids[a] && Put(node.kids[a], rest, c) == c;
      KidReplaced(mem, mem', node, a, c, level);
    } else {
      NarrowToKid(mem, mem', node, path, c);
      PutHolds(mem, mem', node.kids[a], rest, c, level - 1);
      KidRebuilt(mem, mem', node, a, Put(node.kids[a], rest, c), Frames(At(node, path)), Frames(c),
                 Parent(node, path).frame, level);
    }
  }

  lemma KidParts(mem: Memory, node: Node, a: nat, level: nat)
    requires Holds(mem, node, level) && Distinct(node) && node.Branch? && a < |node.kids|
    ensures level > 0 && Holds(mem, node.kids[a], level - 1) && Distinct(node.kids[a])
  {
  }

  lemma {:induction false} ParentFrame(node: Node, path: seq<nat>)
    requires path != [] && Passes(node, path)
    ensures Parent(node, path).Branch? && Parent(node, path).frame in Frames(node)
    decreases |path|
  {
    if |path| > 1 {
      KidIn(node.kids, |node.kids|, path[0]);
      ParentFrame(node.kids[path[0]], path[1..]);
    }
  }

  lemma NarrowToKid(mem: Memory, mem': Memory, node: Node, path: seq<nat>, c: Node)
    requires |path| > 1 && Passes(node, path) && Distinct(node)
    requires EntryChanged(mem, mem', node, path, c)
    ensures EntryChanged(mem, mem', node.kids[path[0]], path[1..], c)
    ensures Frames(At(node, path)) <= Frames(node.kids[path[0]]) <= Frames(node)
    ensures Parent(node, path).frame in Frames(node.kids[path[0]]) && node.frame !in Frames(node.kids[path[0]])
  {
    KidIn(node.kids, |node.kids|, path[0]);
    AtFrames(node.kids[path[0]], path[1..]);
    ParentFrame(node.kids[path[0]], path[1..]);
  }

  /** Kid a is rewritten somewhere below its own table, so its entry stays. */
  lemma KidRebuilt(mem: Memory, mem': Memory, node: Node, a: nat, c: Node, gone: set<nat>, added: set<nat>,
                   changed: nat, level: nat)
    requires node.Branch? && a < |node.kids| && Holds(mem, node, level) && Distinct(node) && Distinct(c)
    requires Holds(mem', c, level - 1) && EntryOf(c) == EntryOf(node.kids[a])
    requires gone <= Frames(node.kids[a]) && Frames(c) == Frames(node.kids[a]) - gone + added
    requires added * (Frames(node) - gone) == {}
    requires changed in Frames(node.kids[a]) && node.frame !in Frames(node.kids[a])
    requires Agree(mem, mem', Frames(node) - gone - {changed})
    ensures Holds(mem', node.(kids := node.kids[a := c]), level)
    ensures Distinct(node.(kids := node.kids[a := c]))
    ensures Frames(node.(kids := node.kids[a := c])) == Frames(node) - gone + added
  {
    KidIn(node.kids, |node.kids|, a);
    var entries := mem[node.frame].entries;
    assert entries[a := EntryOf(c)] == entries;
    KidReplaced(mem, mem', node, a, c, level);
  }

  /** Kid a becomes c: its entry is rewritten, or equals the old one and the table is untouched. */
  lemma KidReplaced(mem: Memory, mem': Memory, node: Node, a: nat, c: Node, level: nat)
    requires node.Branch? && a < |node.kids| && Holds(mem, node, level) && Distinct(node) && Distinct(c)
    requires Holds(mem', c, level - 1)
    requires Frames(c) * (Frames(node) - Frames(node.kids[a])) == {}
    requires Agree(mem, mem', Frames(node) - Frames(node.kids[a]) - {node.frame})
    requires node.frame in mem' && mem'[node.frame] == Table(mem[node.frame].entries[a := EntryOf(c)])
    ensures Holds(mem', node.(kids := node.kids[a := c]), level)
    ensures Distinct(node.(kids := node.kids[a := c]))
    ensures Frames(node.(kids := node.kids[a := c])) == Frames(node) - Frames(node.kids[a]) + Frames(c)
  {
    DistinctAfterPut(node, a, c);
    OtherKidsHold(mem, mem', node, a, level);
  }

  /** The kids beside kid a are untouched when memory agrees outside it. */
  lemma OtherKidsHold(mem: Memory, mem': Memory, node: Node, a: nat, level: nat)
    requires node.Branch? && a < |node.kids| && Holds(mem, node, level) && Distinct(node)
    requires Agree(mem, mem', Frames(node) - Frames(node.kids[a]) - {node.frame})
    ensures forall i :: 0 <= i < |node.kids| && i != a ==> Holds(mem', node.kids[i], level - 1)
  {
    forall i | 0 <= i < |node.kids| && i != a ensures Holds(mem', node.kids[i], level - 1) {
      KidIn(node.kids, |node.kids|, i);
      KidsApart(node.kids, i, a);
      HoldsFrame(mem, mem', node.kids[i], level - 1);
    }
  }

  // ---- Page contents: writing a leaf page disturbs no table.

  /** The frames of a subtree that hold tables. */
  ghost function Tables(node: Node): set<nat>
    decreases node, 1, 0
  {
    match node
    case Branch(_, frame, kids) => {frame} + KidTables(kids, |kids|)
    case _ => {}
  }

  ghost function KidTables(kids: seq<Node>, n: nat): set<nat>
    requires n <= |kids|
    decreases kids, 0, n
  {
    if n == 0 then {} else KidTables(kids, n - 1) + Tables(kids[n - 1])
  }

  lemma {:induction false} TablesAreFrames(node: Node)
    ensures Tables(node) <= Frames(node)
    decreases node, 1, 0
  {
    if node.Branch? {
      KidTablesAreFrames(node.kids, |node.kids|);
    }
  }

  lemma {:induction false} KidTablesAreFrames(kids: seq<Node>, n: nat)
    requires n <= |kids|
    ensures KidTables(kids, n) <= KidFrames(kids, n)
    decreases kids, 0, n
  {
    if n > 0 {
      KidTablesAreFrames(kids, n - 1);
      TablesAreFrames(kids[n - 1]);
    }
  }

  lemma {:induction false} KidTablesIn(kids: seq<Node>, n: nat, i: nat)
    requires i < n <= |kids|
    ensures Tables(kids[i]) <= KidTables(kids, n)
  {
    if i < n - 1 {
      KidTablesIn(kids, n - 1, i);
    }
  }

  lemma {:induction false} KidTablesAvoid(kids: seq<Node>, n: nat, f: nat)
    requires n <= |kids| && forall i :: 0 <= i < n ==> f !in Tables(kids[i])
    ensures f !in KidTables(kids, n)
  {
    if n > 0 {
      KidTablesAvoid(kids, n - 1, f);
    }
  }

  /** The frame a page translates to is not a table of the same pagemap. */
  lemma {:induction false} LeafIsNoTable(node: Node, path: seq<nat>)
    requires Distinct(node) && Lookup(node, path).Some?
    ensures Lookup(node, path).value.index in Frames(node) && Lookup(node, path).value.index !in Tables(node)
    decreases |path|
  {
    if path != [] {
      var a, f := path[0], Lookup(node, path).value.index;
      LeafIsNoTable(node.kids[a], path[1..]);
      KidIn(node.kids, |node.kids|, a);
      forall i | 0 <= i < |node.kids| ensures f !in Tables(node.kids[i]) {
        TablesAreFrames(node.kids[i]);
        if i != a {
          KidsApart(node.kids, i, a);
        }
      }
      KidTablesAvoid(node.kids, |node.kids|, f);
    }
  }

  /** Holds depends on the contents of the tables only, and on the presence of the leaf pages. */
  lemma {:induction false} HoldsTables(mem: Memory, mem': Memory, node: Node, level: nat)
    requires Holds(mem, node, level) && Agree(mem, mem', Tables(node)) && mem.Keys <= mem'.Keys
    ensures Holds(mem', node, level)
    decreases node
  {
    if node.Branch? {
      forall i | 0 <= i < |node.kids| ensures Holds(mem', node.kids[i], level - 1) {
        KidTablesIn(node.kids, |node.kids|, i);
        HoldsTables(mem, mem', node.kids[i], level - 1);
      }
    }
  }
}
