/** What mapping consecutive pages costs: a frame for each page and one for each table that is missing on the way. */
module Costs {
  import opened PageTables
  import opened WalkSpec

  /** The number of the table at height h that covers a page; height 1 is the last table of a walk. */
  function TableIndex(page: nat, h: nat): nat {
    if h == 0 then page else TableIndex(page / ENTRIES, h - 1)
  }

  lemma {:induction false} IndexGrows(a: nat, b: nat, h: nat)
    requires a <= b
    ensures TableIndex(a, h) <= TableIndex(b, h)
    decreases h
  {
    if h > 0 {
      IndexGrows(a / ENTRIES, b / ENTRIES, h - 1);
    }
  }

  lemma {:induction false} DigitAbove(page: nat, j: nat, h: nat)
    requires h <= j
    ensures Digit(page, j) == Digit(TableIndex(page, h), j - h)
    decreases h
  {
    if h > 0 {
      DigitAbove(page / ENTRIES, j - 1, h - 1);
    }
  }

  lemma IndexBound(page: nat)
    requires page < LOWER_PAGES
    ensures TableIndex(page, 1) == page / ENTRIES < 0x400_0000
    ensures TableIndex(page, 2) == page / ENTRIES / ENTRIES < 0x2_0000
    ensures TableIndex(page, 3) == page / ENTRIES / ENTRIES / ENTRIES < 0x100
  {
    assert TableIndex(page, 1) == TableIndex(page / ENTRIES, 0);
    assert TableIndex(page, 2) == TableIndex(page / ENTRIES, 1) == TableIndex(page / ENTRIES / ENTRIES, 0);
    assert TableIndex(page, 3) == TableIndex(page / ENTRIES, 2) == TableIndex(page / ENTRIES / ENTRIES, 1) ==
           TableIndex(page / ENTRIES / ENTRIES / ENTRIES, 0);
  }

  ghost function Power(n: nat): nat {
    if n == 0 then 1 else ENTRIES * Power(n - 1)
  }

  lemma {:induction false} DigitsTell(a: nat, b: nat, n: nat)
    requires a < Power(n) && b < Power(n) && forall j :: 0 <= j < n ==> Digit(a, j) == Digit(b, j)
    ensures a == b
    decreases n
  {
    if n > 0 {
      assert Digit(a, 0) == Digit(b, 0);
      forall j | 0 <= j < n - 1 ensures Digit(a / ENTRIES, j) == Digit(b / ENTRIES, j) {
        assert Digit(a, j + 1) == Digit(b, j + 1);
      }
      DigitsTell(a / ENTRIES, b / ENTRIES, n - 1);
      SamePlace(a, b);
    }
  }

  /** Two pages are under the same table of height h exactly if their paths agree down to it. */
  lemma SamePrefix(a: nat, b: nat, h: nat)
    requires a < LOWER_PAGES && b < LOWER_PAGES && 1 <= h <= 3
    ensures PathOf(a)[..TOP_LEVEL - h] == PathOf(b)[..TOP_LEVEL - h] <==> TableIndex(a, h) == TableIndex(b, h)
  {
    hide Power, Digit, TableIndex;
    var n := TOP_LEVEL - h;
    var (i, k) := (TableIndex(a, h), TableIndex(b, h));
    forall j | 0 <= j < n
      ensures PathOf(a)[n - 1 - j] == Digit(i, j) && PathOf(b)[n - 1 - j] == Digit(k, j)
    {
      DigitAbove(a, j + h, h);
      DigitAbove(b, j + h, h);
    }
    if i == k {
      forall m | 0 <= m < n ensures PathOf(a)[m] == PathOf(b)[m] {
        assert PathOf(a)[n - 1 - (n - 1 - m)] == Digit(i, n - 1 - m);
      }
    } else if PathOf(a)[..n] == PathOf(b)[..n] {
      forall j | 0 <= j < n ensures Digit(i, j) == Digit(k, j) {
        assert PathOf(a)[..n][n - 1 - j] == PathOf(b)[..n][n - 1 - j];
      }
      IndexFits(a, h);
      IndexFits(b, h);
      DigitsTell(i, k, n);
    }
  }

  lemma IndexFits(page: nat, h: nat)
    requires page < LOWER_PAGES && 1 <= h <= 3
    ensures TableIndex(page, h) < Power(TOP_LEVEL - h)
  {
    hide Power, TableIndex;
    IndexBound(page);
    PowerIs();
  }

  lemma PowerIs()
    ensures Power(1) == 0x200 && Power(2) == 0x4_0000 && Power(3) == 0x800_0000
  {
    assert Power(0) == 1 && Power(1) == ENTRIES * Power(0) && Power(2) == ENTRIES * Power(1) && Power(3) == ENTRIES * Power(2);
  }

  /** The tree has the table of height h that covers the page. */
  ghost predicate TableFor(tree: Node, page: nat, h: nat)
    requires h <= TOP_LEVEL
  {
    HasTable(tree, PathOf(page)[..TOP_LEVEL - h])
  }

  lemma TableStep(node: Node, q: seq<nat>, k: nat)
    requires 1 <= k <= |q|
    ensures HasTable(node, q[..k]) <==>
            node.Branch? && q[0] < |node.kids| && HasTable(node.kids[q[0]], q[1..][..k - 1])
    ensures HasTable(node, q[..k]) ==> node.kids[q[0]].Branch?
  {
    assert q[..k][1..] == q[1..][..k - 1];
  }

  /** How many tables a walk to the page has to add. */
  lemma MissingCounts(tree: Node, page: nat)
    ensures Missing(tree, PathOf(page)) ==
            (if TableFor(tree, page, 3) then 0 else 1) + (if TableFor(tree, page, 2) then 0 else 1) +
            (if TableFor(tree, page, 1) then 0 else 1)
  {
    var p := PathOf(page);
    TableStep(tree, p, 1);
    TableStep(tree, p, 2);
    TableStep(tree, p, 3);
    if tree.Branch? && p[0] < |tree.kids| && tree.kids[p[0]].Branch? {
      var t1, p1 := tree.kids[p[0]], p[1..];
      TableStep(t1, p1, 1);
      TableStep(t1, p1, 2);
      if p1[0] < |t1.kids| && t1.kids[p1[0]].Branch? {
        var t2, p2 := t1.kids[p1[0]], p1[1..];
        TableStep(t2, p2, 1);
        assert Missing(tree, p) == Missing(t1, p1) == Missing(t2, p2);
        assert HasTable(t2, p2[..1]) ==> Missing(t2, p2) == Missing(t2.kids[p2[0]], p2[1..]);
      }
    }
  }

  // ---- Consecutive pages.

  /** Whether page p, after pages lo .. p - 1, is the first to need a table of height h that the tree has not. */
  ghost function NeedsTable(tree: Node, lo: nat, p: nat, h: nat): nat
    requires h <= TOP_LEVEL
  {
    if TableFor(tree, p, h) || (p > lo && TableIndex(p - 1, h) == TableIndex(p, h)) then 0 else 1
  }

  ghost function NewTables(tree: Node, lo: nat, p: nat): nat {
    NeedsTable(tree, lo, p, 1) + NeedsTable(tree, lo, p, 2) + NeedsTable(tree, lo, p, 3)
  }

  /** The tables that mapping pages lo .. hi - 1 adds. */
  ghost function TablesOver(tree: Node, lo: nat, hi: nat): nat {
    if hi <= lo then 0 else TablesOver(tree, lo, hi - 1) + NewTables(tree, lo, hi - 1)
  }

  /** The frames that mapping pages lo .. hi - 1 takes. */
  ghost function Cost(tree: Node, lo: nat, hi: nat): nat {
    if hi <= lo then 0 else hi - lo + TablesOver(tree, lo, hi)
  }

  lemma {:induction false} CostGrows(tree: Node, lo: nat, k: nat, hi: nat)
    requires lo <= k <= hi
    ensures Cost(tree, lo, k) + (hi - k) <= Cost(tree, lo, hi) <= Cost(tree, lo, k) + 4 * (hi - k)
    ensures TablesOver(tree, lo, k) <= TablesOver(tree, lo, hi)
  {
    hide NewTables;
    if k < hi {
      CostGrows(tree, lo, k, hi - 1);
      NewTablesBound(tree, lo, hi - 1);
    }
  }

  lemma CostNothing(tree: Node, lo: nat)
    ensures Cost(tree, lo, lo) == 0
  {
  }

  lemma CostBound(tree: Node, lo: nat, n: nat)
    ensures Cost(tree, lo, lo + n) <= 4 * n
  {
    CostGrows(tree, lo, lo, lo + n);
  }

  lemma NewTablesBound(tree: Node, lo: nat, p: nat)
    ensures NewTables(tree, lo, p) <= 3
  {
  }

  /** One of the pages lo .. hi - 1 is under the same table of height h as q. */
  ghost predicate Reaches(lo: nat, hi: nat, q: nat, h: nat) {
    exists x :: lo <= x < hi && TableIndex(x, h) == TableIndex(q, h)
  }

  /** tree' has, besides the tables of `tree`, exactly those that pages lo .. hi - 1 are under. */
  ghost predicate Covered(tree: Node, tree': Node, lo: nat, hi: nat) {
    forall q: nat, h: nat :: q < LOWER_PAGES && 1 <= h <= 3 ==>
      (TableFor(tree', q, h) <==> TableFor(tree, q, h) || Reaches(lo, hi, q, h))
  }

  lemma CoveredNothing(tree: Node, lo: nat)
    ensures Covered(tree, tree, lo, lo)
  {
  }

  lemma CoveredSnoc(tree: Node, tree1: Node, tree': Node, lo: nat, hi: nat)
    requires Covered(tree, tree1, lo, hi) && TablesAdded(tree1, tree', PathOf(hi)[..3]) && lo <= hi < LOWER_PAGES
    ensures Covered(tree, tree', lo, hi + 1)
  {
    hide HasTable, TableIndex;
    forall q: nat, h: nat | q < LOWER_PAGES && 1 <= h <= 3
      ensures TableFor(tree', q, h) <==> TableFor(tree, q, h) || Reaches(lo, hi + 1, q, h)
    {
      SamePrefix(q, hi, h);
      PrefixOfPath(q, hi, h);
      assert TableFor(tree', q, h) <==> TableFor(tree1, q, h) || TableIndex(q, h) == TableIndex(hi, h);
      ReachesSnoc(lo, hi, q, h);
    }
  }

  lemma PrefixOfPath(q: nat, p: nat, h: nat)
    requires 1 <= h <= 3
    ensures PathOf(q)[..TOP_LEVEL - h] <= PathOf(p)[..3] <==> PathOf(q)[..TOP_LEVEL - h] == PathOf(p)[..TOP_LEVEL - h]
  {
    var n := TOP_LEVEL - h;
    assert PathOf(p)[..3][..n] == PathOf(p)[..n];
  }

  lemma ReachesSnoc(lo: nat, hi: nat, q: nat, h: nat)
    requires lo <= hi
    ensures Reaches(lo, hi + 1, q, h) <==> Reaches(lo, hi, q, h) || TableIndex(q, h) == TableIndex(hi, h)
  {
    if Reaches(lo, hi, q, h) {
      var x :| lo <= x < hi && TableIndex(x, h) == TableIndex(q, h);
      assert lo <= x < hi + 1;
    }
  }

  /** The pages before p are under the same table as p exactly if the last of them is. */
  lemma ReachesLast(lo: nat, p: nat, h: nat)
    requires lo <= p
    ensures Reaches(lo, p, p, h) <==> p > lo && TableIndex(p - 1, h) == TableIndex(p, h)
  {
    if Reaches(lo, p, p, h) {
      var x :| lo <= x < p && TableIndex(x, h) == TableIndex(p, h);
      IndexGrows(x, p - 1, h);
      IndexGrows(p - 1, p, h);
    }
  }

  lemma MissingNow(tree: Node, tree1: Node, lo: nat, p: nat)
    requires Covered(tree, tree1, lo, p) && lo <= p < LOWER_PAGES
    ensures Missing(tree1, PathOf(p)) == NewTables(tree, lo, p)
  {
    hide Missing, TableIndex, HasTable;
    MissingCounts(tree1, p);
    ReachesLast(lo, p, 1);
    ReachesLast(lo, p, 2);
    ReachesLast(lo, p, 3);
    assert TableFor(tree1, p, 1) <==> TableFor(tree, p, 1) || Reaches(lo, p, p, 1);
    assert TableFor(tree1, p, 2) <==> TableFor(tree, p, 2) || Reaches(lo, p, p, 2);
    assert TableFor(tree1, p, 3) <==> TableFor(tree, p, 3) || Reaches(lo, p, p, 3);
  }
}
