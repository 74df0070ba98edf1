/** The recursive halves of kernel/mm/vmm/vmm.c: what cloning one table, entry by entry, establishes. */
module CloneSpec {
  import opened PageTables

  /** Memory is unchanged outside `changed`, and no frame disappears. */
  ghost predicate OnlyIn(mem: Memory, mem': Memory, changed: set<nat>) {
    forall f :: f in mem ==> f in mem' && (f in changed || mem'[f] == mem[f])
  }

  lemma OnlyInTrans(mem: Memory, mem': Memory, mem'': Memory, a: set<nat>, b: set<nat>, c: set<nat>)
    requires OnlyIn(mem, mem', a) && OnlyIn(mem', mem'', b) && a <= c && b <= c
    ensures OnlyIn(mem, mem'', c)
  {
  }

  /** The frames `added` were free, and taking exactly them turned `used` into used'. */
  ghost predicate Taken(used: set<nat>, used': set<nat>, added: set<nat>) {
    added !! used && used' == used + added && 0 !in added
  }

  lemma TakenTrans(used: set<nat>, used': set<nat>, used'': set<nat>, a: set<nat>, b: set<nat>)
    requires Taken(used, used', a) && Taken(used', used'', b)
    ensures Taken(used, used'', a + b) && a !! b
  {
  }

  /** The subtree is in memory, has no stale entry, and all its frames are in use. */
  ghost predicate Sound(mem: Memory, used: set<nat>, node: Node, level: nat) {
    Holds(mem, node, level) && Live(node) && Frames(node) <= used
  }

  /** The table in frame cur holds the kids, each of them sound. */
  ghost predicate Source(mem: Memory, used: set<nat>, cur: nat, kids: seq<Node>, level: nat) {
    && 1 <= level <= TOP_LEVEL && |kids| == Limit(level) && IsTable(mem, cur) && cur in used
    && (forall i :: 0 <= i < |kids| ==> mem[cur].entries[i] == EntryOf(kids[i]))
    && (forall i :: 0 <= i < |kids| ==> Sound(mem, used, kids[i], level - 1))
  }

  /** The table in frame `to` is in use, not part of the source, and blank as far as the walk goes. */
  ghost predicate Target(mem: Memory, used: set<nat>, to: nat, cur: nat, kids: seq<Node>, level: nat) {
    && IsTable(mem, to) && to in used && to != cur && to !in KidFrames(kids, |kids|)
    && (forall i :: 0 <= i < Limit(level) ==> mem[to].entries[i] == ZERO)
  }

  /** Entry i of table `to` was given the clone c of `kid`; everything new lies in frames that were free. */
  ghost predicate EntryCloned(mem: Memory, mem': Memory, used: set<nat>, used': set<nat>, to: nat, i: nat,
                              kid: Node, c: Node, level: nat)
    requires i < ENTRIES && level > 0
  {
    && IsTable(mem, to) && to in mem' && mem'[to] == Table(mem[to].entries[i := EntryOf(c)])
    && Taken(used, used', Frames(c))
    && Distinct(c) && Holds(mem', c, level - 1) && Twin(mem', kid, c)
    && OnlyIn(mem, mem', {to} + Frames(c))
  }

  /** The first |copy| entries of table `to` are clones of the first kids. */
  ghost predicate Cloned(mem: Memory, mem': Memory, used: set<nat>, used': set<nat>, to: nat,
                         kids: seq<Node>, copy: seq<Node>, level: nat)
    requires level > 0
  {
    && |copy| <= |kids| && IsTable(mem, to) && IsTable(mem', to) && |copy| <= ENTRIES
    && Taken(used, used', KidFrames(copy, |copy|)) && DistinctKids(copy)
    && (forall j :: 0 <= j < ENTRIES ==>
          mem'[to].entries[j] == if j < |copy| then EntryOf(copy[j]) else mem[to].entries[j])
    && Twins(mem', kids, copy, level)
    && OnlyIn(mem, mem', {to} + KidFrames(copy, |copy|))
  }

  /** The copies are in memory and match the kids they were made from. */
  ghost predicate Twins(mem: Memory, kids: seq<Node>, copy: seq<Node>, level: nat)
    requires level > 0 && |copy| <= |kids|
  {
    forall j :: 0 <= j < |copy| ==> Holds(mem, copy[j], level - 1) && Twin(mem, kids[j], copy[j])
  }

  lemma ClonedNothing(mem: Memory, used: set<nat>, to: nat, cur: nat, kids: seq<Node>, level: nat)
    requires Source(mem, used, cur, kids, level) && Target(mem, used, to, cur, kids, level)
    ensures Cloned(mem, mem, used, used, to, kids, [], level)
  {
  }

  lemma SourceShape(mem: Memory, used: set<nat>, cur: nat, kids: seq<Node>, level: nat)
    requires Source(mem, used, cur, kids, level)
    ensures 1 <= level <= TOP_LEVEL && |kids| == Limit(level)
  {
  }

  /** One more entry. mem is the memory at the start, mem' before this entry, mem'' after it. */
  lemma ClonedSnoc(mem: Memory, mem': Memory, mem'': Memory, used: set<nat>, used': set<nat>, used'': set<nat>,
                   to: nat, kids: seq<Node>, copy: seq<Node>, c: Node, level: nat)
    requires level > 0 && |copy| < |kids| && |copy| < ENTRIES
    requires Cloned(mem, mem', used, used', to, kids, copy, level)
    requires EntryCloned(mem', mem'', used', used'', to, |copy|, kids[|copy|], c, level)
    requires to in used && to !in KidFrames(kids, |kids|) && KidFrames(kids, |kids|) <= used
    ensures Cloned(mem, mem'', used, used'', to, kids, copy + [c], level)
  {
    hide Twins, Twin, Holds, Distinct, DistinctKids, Frames, KidFrames;
    KidFramesSnoc(copy, c);
    var before, added := KidFrames(copy, |copy|), Frames(c);
    TakenTrans(used, used', used'', before, added);
    DistinctSnoc(copy, c);
    OnlyInTrans(mem, mem', mem'', {to} + before, {to} + added, {to} + (before + added));
    TwinsSnoc(mem', mem'', used', to, kids, copy, c, level);
  }

  lemma DistinctSnoc(copy: seq<Node>, c: Node)
    requires DistinctKids(copy) && Distinct(c) && KidFrames(copy, |copy|) !! Frames(c)
    ensures DistinctKids(copy + [c])
  {
    var copy' := copy + [c];
    forall i | 0 <= i < |copy| ensures Frames(copy'[i]) !! Frames(c) {
      KidIn(copy, |copy|, i);
    }
  }

  lemma TwinsSnoc(mem: Memory, mem': Memory, used: set<nat>, to: nat, kids: seq<Node>, copy: seq<Node>, c: Node,
                  level: nat)
    requires level > 0 && |copy| < |kids| && Twins(mem, kids, copy, level)
    requires Holds(mem', c, level - 1) && Twin(mem', kids[|copy|], c)
    requires OnlyIn(mem, mem', {to} + Frames(c)) && Frames(c) !! used
    requires KidFrames(copy, |copy|) <= used && to !in KidFrames(copy, |copy|)
    requires KidFrames(kids, |kids|) <= used && to !in KidFrames(kids, |kids|)
    ensures Twins(mem', kids, copy + [c], level)
  {
    forall j | 0 <= j < |copy| ensures Holds(mem', copy[j], level - 1) && Twin(mem', kids[j], copy[j]) {
      KidIn(copy, |copy|, j);
      KidIn(kids, |kids|, j);
      PrefixStays(mem, mem', used, to, kids[j], copy[j], c, level);
    }
  }

  /** A finished clone survives the cloning of a later entry. */
  lemma PrefixStays(mem: Memory, mem': Memory, used: set<nat>, to: nat, kid: Node, done: Node, c: Node, level: nat)
    requires level > 0 && Holds(mem, done, level - 1) && Twin(mem, kid, done)
    requires OnlyIn(mem, mem', {to} + Frames(c)) && Frames(c) !! used
    requires Frames(done) <= used && Frames(kid) <= used && to !in Frames(done) && to !in Frames(kid)
    ensures Holds(mem', done, level - 1) && Twin(mem', kid, done)
  {
    HoldsFrame(mem, mem', done, level - 1);
    TwinFrame(mem, mem', kid, done);
  }

  /** The entry about to be cloned is as it was at the start. */
  lemma NextEntryReady(mem: Memory, mem': Memory, used: set<nat>, used': set<nat>, cur: nat, to: nat,
                       kids: seq<Node>, copy: seq<Node>, level: nat)
    requires Source(mem, used, cur, kids, level) && Target(mem, used, to, cur, kids, level)
    requires Cloned(mem, mem', used, used', to, kids, copy, level) && |copy| < |kids|
    ensures IsTable(mem', cur) && mem'[cur].entries[|copy|] == EntryOf(kids[|copy|])
    ensures Sound(mem', used', kids[|copy|], level - 1)
    ensures to !in Frames(kids[|copy|]) && mem'[to].entries[|copy|] == ZERO
    ensures KidFrames(kids, |kids|) <= used
  {
    hide Holds, Live, DistinctKids, Twins, Frames, KidFrames;
    var kid := kids[|copy|];
    SourceFramesUsed(mem, used, cur, kids, level);
    KidIn(kids, |kids|, |copy|);
    assert Sound(mem, used, kid, level - 1);
    AgreeOutside(mem, mem', {to} + KidFrames(copy, |copy|), Frames(kid));
    AgreeOutside(mem, mem', {to} + KidFrames(copy, |copy|), {cur});
    SoundFrame(mem, mem', used, used', kid, level - 1);
  }

  lemma AgreeOutside(mem: Memory, mem': Memory, changed: set<nat>, keep: set<nat>)
    requires OnlyIn(mem, mem', changed) && keep !! changed
    ensures Agree(mem, mem', keep)
  {
  }

  lemma SoundFrame(mem: Memory, mem': Memory, used: set<nat>, used': set<nat>, node: Node, level: nat)
    requires Sound(mem, used, node, level) && used <= used' && Agree(mem, mem', Frames(node))
    ensures Sound(mem', used', node, level)
  {
    HoldsFrame(mem, mem', node, level);
  }

  lemma SourceFramesUsed(mem: Memory, used: set<nat>, cur: nat, kids: seq<Node>, level: nat)
    requires Source(mem, used, cur, kids, level)
    ensures KidFrames(kids, |kids|) <= used
  {
    forall j | 0 <= j < |kids| ensures Frames(kids[j]) <= used {
      assert Sound(mem, used, kids[j], level - 1);
    }
    KidsInside(kids, |kids|, used);
  }

  /** Memory after the new page is cleared and entered into table `to`. */
  ghost function Entered(mem: Memory, to: nat, i: nat, entry: Entry, f: nat): Memory
    requires IsTable(mem, to) && i < ENTRIES && f != to
  {
    mem[f := EmptyTable()][to := Table(mem[to].entries[i := entry.(index := f)])]
  }

  lemma ReadyBelow(mem: Memory, used: set<nat>, to: nat, i: nat, kid: Node, f: nat, level: nat)
    requires IsTable(mem, to) && i < ENTRIES && to in used && f !in used
    requires kid.Branch? && 1 < level <= TOP_LEVEL && Sound(mem, used, kid, level - 1) && to !in Frames(kid)
    ensures var mem' := Entered(mem, to, i, EntryOf(kid), f);
            Source(mem', used + {f}, kid.frame, kid.kids, level - 1) &&
            Target(mem', used + {f}, f, kid.frame, kid.kids, level - 1)
  {
    var mem' := Entered(mem, to, i, EntryOf(kid), f);
    forall j | 0 <= j < |kid.kids| ensures Sound(mem', used + {f}, kid.kids[j], level - 2) {
      KidIn(kid.kids, |kid.kids|, j);
      SoundFrame(mem, mem', used, used + {f}, kid.kids[j], level - 2);
    }
  }

  lemma BranchDone(mem: Memory, mem': Memory, used: set<nat>, used': set<nat>, to: nat, i: nat, kid: Node, f: nat,
                   sub: seq<Node>, level: nat)
    requires IsTable(mem, to) && i < ENTRIES && to in used && f !in used && f != 0
    requires kid.Branch? && 1 < level <= TOP_LEVEL && Sound(mem, used, kid, level - 1)
    requires |sub| == |kid.kids|
    requires Cloned(Entered(mem, to, i, EntryOf(kid), f), mem', used + {f}, used', f, kid.kids, sub, level - 1)
    ensures EntryCloned(mem, mem', used, used', to, i, kid, Branch(kid.flags, f, sub), level)
  {
  }

  lemma AbsentDone(mem: Memory, used: set<nat>, to: nat, i: nat, kid: Node, level: nat)
    requires IsTable(mem, to) && i < ENTRIES && mem[to].entries[i] == ZERO && level > 0
    requires EntryOf(kid) == ZERO && Sound(mem, used, kid, level - 1)
    ensures EntryCloned(mem, mem, used, used, to, i, kid, Absent, level) && Size(kid) == 0
  {
    assert kid == Absent;
    assert mem[to].entries[i := ZERO] == mem[to].entries;
  }

  lemma LeafDone(mem: Memory, used: set<nat>, to: nat, i: nat, kid: Node, f: nat, level: nat)
    requires IsTable(mem, to) && i < ENTRIES && to in used && f !in used && f != 0
    requires kid.Leaf? && level == 1 && Sound(mem, used, kid, level - 1) && to !in Frames(kid)
    ensures kid.frame in Entered(mem, to, i, EntryOf(kid), f)
    ensures var mem' := Entered(mem, to, i, EntryOf(kid), f);
            EntryCloned(mem, mem'[f := mem'[kid.frame]], used, used + {f}, to, i, kid, Leaf(kid.flags, f), level)
  {
    assert kid.frame in Frames(kid);
  }
}

/** What deleting one table, entry by entry, establishes. */
module DeleteSpec {
  import opened PageTables
  import opened CloneSpec

  /** The table in frame cur holds the kids, which share no frame with each other or with it. */
  ghost predicate Doomed(mem: Memory, used: set<nat>, cur: nat, kids: seq<Node>, level: nat) {
    && level <= TOP_LEVEL && KidFrames(kids, |kids|) <= used
    && (level == 0 ==> kids == [])
    && (level > 0 ==>
          && |kids| == Limit(level) && IsTable(mem, cur) && cur !in KidFrames(kids, |kids|) && DistinctKids(kids)
          && (forall i :: 0 <= i < |kids| ==> mem[cur].entries[i] == EntryOf(kids[i]))
          && (forall i :: 0 <= i < |kids| ==> Holds(mem, kids[i], level - 1)))
  }

  /** Entry i of table cur was cleared and exactly the frames of `kid` were returned. */
  ghost predicate EntryDeleted(mem: Memory, mem': Memory, used: set<nat>, used': set<nat>, cur: nat, i: nat, kid: Node)
    requires i < ENTRIES
  {
    && IsTable(mem, cur) && cur in mem' && mem'[cur] == Table(mem[cur].entries[i := ZERO])
    && used' == used - Frames(kid)
    && OnlyIn(mem, mem', {cur} + Frames(kid))
  }

  /** The first n entries of table cur are cleared and exactly the frames below them were returned. */
  ghost predicate Deleted(mem: Memory, mem': Memory, used: set<nat>, used': set<nat>, cur: nat, kids: seq<Node>, n: nat)
    requires n <= |kids|
  {
    && used' == used - KidFrames(kids, n)
    && OnlyIn(mem, mem', {cur} + KidFrames(kids, n))
    && (IsTable(mem, cur) ==>
          IsTable(mem', cur) &&
          (forall j :: 0 <= j < ENTRIES ==> mem'[cur].entries[j] == if j < n then ZERO else mem[cur].entries[j]))
  }

  lemma DeletedSnoc(mem: Memory, mem': Memory, mem'': Memory, used: set<nat>, used': set<nat>, used'': set<nat>,
                    cur: nat, kids: seq<Node>, i: nat)
    requires i < |kids| && i < ENTRIES
    requires Deleted(mem, mem', used, used', cur, kids, i)
    requires EntryDeleted(mem', mem'', used', used'', cur, i, kids[i])
    requires IsTable(mem, cur)
    ensures Deleted(mem, mem'', used, used'', cur, kids, i + 1)
  {
  }

  /** The entry about to be deleted is untouched by the deletion of the earlier ones. */
  lemma NextStillHolds(mem: Memory, mem': Memory, used: set<nat>, used': set<nat>, cur: nat, kids: seq<Node>, i: nat,
                       level: nat)
    requires level > 0 && i < |kids| && Doomed(mem, used, cur, kids, level)
    requires Deleted(mem, mem', used, used', cur, kids, i)
    ensures Holds(mem', kids[i], level - 1) && Frames(kids[i]) <= used' && mem'[cur].entries[i] == EntryOf(kids[i])
    ensures cur !in Frames(kids[i])
  {
    KidIn(kids, |kids|, i);
    KidsAvoid(kids, i, Frames(kids[i]));
    HoldsFrame(mem, mem', kids[i], level - 1);
  }

  lemma KidDoomed(mem: Memory, used: set<nat>, kid: Node, level: nat)
    requires 1 <= level <= TOP_LEVEL && (kid.Leaf? || kid.Branch?)
    requires Holds(mem, kid, level - 1) && Distinct(kid) && Frames(kid) <= used
    ensures Doomed(mem, used, kid.frame, if level == 1 then [] else kid.kids, level - 1)
    ensures kid.frame in used && kid.frame in Frames(kid)
    ensures level != 1 ==> kid.Branch? && Frames(kid) == {kid.frame} + KidFrames(kid.kids, |kid.kids|)
    ensures level == 1 ==> Frames(kid) == {kid.frame} && KidFrames([], 0) == {}
  {
  }
}
